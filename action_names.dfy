/** Deriving package names from action names (`getActionPackages`): an action
    named `pkg/action` lives in package `pkg`. */
module ActionNames {
  import opened Wrappers

  /** The code points JavaScript's `.` does not match. */
  predicate IsLineTerminator(c: char) {
    c == '\n' || c == '\r' || c == '\U{2028}' || c == '\U{2029}'
  }

  predicate NoLineTerminator(s: string) {
    forall i :: 0 <= i < |s| ==> !IsLineTerminator(s[i])
  }

  /** `p` is what group 1 captures in SOME match of `/^(.+)\/.+$/` against `s`:
      every character is matched by `.`, `p` is non-empty, a `/` follows it and
      at least one character follows that. */
  ghost predicate IsCapture(s: string, p: string) {
    && NoLineTerminator(s)
    && 1 <= |p|
    && |p| + 2 <= |s|
    && s[..|p|] == p
    && s[|p|] == '/'
  }

  /** The largest index below `n`, and above 0, that holds a `/`. */
  function LastSlashBelow(s: string, n: nat): (r: Option<nat>)
    requires n <= |s|
    ensures r.Some? ==> 1 <= r.value < n && s[r.value] == '/'
    ensures r.Some? ==> forall j :: r.value < j < n ==> s[j] != '/'
    ensures r.None? ==> forall j :: 1 <= j < n ==> s[j] != '/'
  {
    if n <= 1 then None
    else if s[n - 1] == '/' then Some(n - 1)
    else LastSlashBelow(s, n - 1)
  }

  /** `name.match(/^(.+)\/.+$/)`, returning group 1. The greedy `(.+)` backtracks
      from the end, so the capture ends at the rightmost `/` that has at least
      one character on each side. */
  function MatchPackage(name: string): (r: Option<string>)
    ensures r.Some? ==> IsCapture(name, r.value)
    ensures r.Some? ==> forall p {:trigger IsCapture(name, p)} :: IsCapture(name, p) ==> |p| <= |r.value|
    ensures r.None? ==> forall p {:trigger IsCapture(name, p)} :: !IsCapture(name, p)
  {
    if |name| == 0 || !NoLineTerminator(name) then None
    else
      match LastSlashBelow(name, |name| - 1)
      case None => None
      case Some(i) => Some(name[..i])
  }

  /** The regex has exactly one greedy answer: the longest capture. */
  lemma MatchPackageIsLongestCapture(name: string, p: string)
    ensures MatchPackage(name) == Some(p) <==>
              IsCapture(name, p) && forall q {:trigger IsCapture(name, q)} :: IsCapture(name, q) ==> |q| <= |p|
  {
  }

  lemma MatchPackageExamples()
    ensures MatchPackage("a/b/") == Some("a")
    ensures MatchPackage("x/y/z") == Some("x/y")
    ensures MatchPackage("/a") == None
    ensures MatchPackage("a") == None
    ensures MatchPackage("a/\nb") == None
  {
    assert NoLineTerminator("a/b/") by {
      forall i | 0 <= i < 4 ensures !IsLineTerminator("a/b/"[i]) {}
    }
    assert LastSlashBelow("a/b/", 3) == Some(1);
    assert "a/b/"[..1] == "a";
    assert NoLineTerminator("x/y/z") by {
      forall i | 0 <= i < 5 ensures !IsLineTerminator("x/y/z"[i]) {}
    }
    assert LastSlashBelow("x/y/z", 4) == Some(3);
    assert "x/y/z"[..3] == "x/y";
    assert IsLineTerminator("a/\nb"[2]);
  }

  /** A function whose `name` is set and matches places its action in package `p`
      (the `filter` at compile/packages/index.js:49 and the `match` at
      compile/packages/index.js:51). */
  predicate Derives(name: string, p: string) {
    name != "" && MatchPackage(name) == Some(p)
  }

  /** `Set.prototype.add` on a set kept in insertion order. */
  function SetAdd(s: seq<string>, x: string): (r: seq<string>)
    ensures x in r
    ensures x in s ==> r == s
    ensures forall y :: y in r <==> y in s || y == x
    ensures NoDuplicates(s) ==> NoDuplicates(r)
    ensures |s| <= |r| <= |s| + 1 && r[..|s|] == s
  {
    if x in s then s else s + [x]
  }

  /** `[...actionPackages]` after the `forEach` over `names` has run. */
  function ActionPackages(names: seq<string>): (r: seq<string>)
    ensures |r| <= |names|
  {
    if names == [] then []
    else
      var before := ActionPackages(names[..|names| - 1]);
      var name := names[|names| - 1];
      if name != "" && MatchPackage(name).Some? then SetAdd(before, MatchPackage(name).value)
      else before
  }

  ghost predicate NoDuplicates(s: seq<string>) {
    forall i, j :: 0 <= i < j < |s| ==> s[i] != s[j]
  }

  /** `names[i]` is the first function name that derives `p`. */
  ghost predicate FirstDerivedAt(names: seq<string>, i: int, p: string) {
    0 <= i < |names| && Derives(names[i], p) && forall j :: 0 <= j < i ==> !Derives(names[j], p)
  }

  lemma {:induction false} ActionPackagesDistinct(names: seq<string>)
    ensures NoDuplicates(ActionPackages(names))
  {
    if names != [] {
      ActionPackagesDistinct(names[..|names| - 1]);
    }
  }

  lemma {:induction false} ActionPackagesMembers(names: seq<string>)
    ensures forall p :: p in ActionPackages(names) <==> exists i :: 0 <= i < |names| && Derives(names[i], p)
  {
    if names != [] {
      var init := names[..|names| - 1];
      ActionPackagesMembers(init);
      forall p ensures p in ActionPackages(names) <==> exists i :: 0 <= i < |names| && Derives(names[i], p) {
        if exists i :: 0 <= i < |names| && Derives(names[i], p) {
          var i :| 0 <= i < |names| && Derives(names[i], p);
          if i < |init| {
            assert init[i] == names[i];
          }
        }
        if p in ActionPackages(init) {
          var i :| 0 <= i < |init| && Derives(init[i], p);
          assert names[i] == init[i];
        }
      }
    }
  }

  /** A first derivation within a prefix of the names is a first derivation in the prefix. */
  lemma FirstDerivedInPrefix(names: seq<string>, n: nat, i: int, p: string)
    requires n <= |names| && i < n
    requires FirstDerivedAt(names, i, p)
    ensures FirstDerivedAt(names[..n], i, p)
  {
  }

  /** `r` lists packages in the order of their first derivation from `names`. */
  ghost predicate InFirstDerivationOrder(names: seq<string>, r: seq<string>) {
    forall a, b, i, j :: 0 <= a < b < |r| && FirstDerivedAt(names, i, r[a]) && FirstDerivedAt(names, j, r[b]) ==> i < j
  }

  lemma {:induction false} ActionPackagesOrder(names: seq<string>)
    ensures InFirstDerivationOrder(names, ActionPackages(names))
  {
    if names != [] {
      var n := |names|;
      var init := names[..n - 1];
      var r, before := ActionPackages(names), ActionPackages(init);
      ActionPackagesOrder(init);
      ActionPackagesMembers(init);
      assert |r| <= |before| + 1 && before == r[..|before|];
      forall a, b, i, j | 0 <= a < b < |r| && FirstDerivedAt(names, i, r[a]) && FirstDerivedAt(names, j, r[b])
        ensures i < j
      {
        assert r[a] == before[a];
        var k :| 0 <= k < |init| && Derives(init[k], r[a]);
        assert Derives(names[k], r[a]);
        assert i <= k;
        FirstDerivedInPrefix(names, n - 1, i, r[a]);
        if b < |before| {
          assert r[b] == before[b];
          var k' :| 0 <= k' < |init| && Derives(init[k'], r[b]);
          assert Derives(names[k'], r[b]);
          FirstDerivedInPrefix(names, n - 1, j, r[b]);
          assert FirstDerivedAt(init, i, before[a]) && FirstDerivedAt(init, j, before[b]);
        } else {
          assert r[b] !in before;
          assert i < n - 1 <= j;
        }
      }
    }
  }
}
