/** Package descriptors: what `compilePackage` builds from one manifest entry,
    and how `mergeActionPackages` fills the manifest. */
module Packages {
  import opened Wrappers

  /** A JSON value from the manifest, copied unchanged into a parameter list. */
  datatype Value =
    | Null
    | Bool(b: bool)
    | Number(n: int)
    | Str(s: string)
    | List(items: seq<Value>)
    | Object(fields: seq<(string, Value)>)

  /** A JavaScript object, as its key/value pairs in enumeration order
      (the order `Object.keys` yields). A JavaScript object never repeats a
      key, so a value with a repeated key stands for no object; the lemmas
      about parameter lists assume `DistinctKeys`. */
  type Fields = seq<(string, Value)>

  /** The body of a declared package in `resources.packages`: `namespace` and
      `parameters` absent or null are `None`; `overwrite` is `Some` exactly when
      it is an own property. */
  datatype PackageParams = PackageParams(
    namespace: Option<string>,
    overwrite: Option<bool>,
    parameters: Option<Fields>)

  /** The `{}` that `mergeActionPackages` writes for a derived package. */
  const EmptyParams := PackageParams(None, None, None)

  /** One value of `resources.packages`: `null`/`undefined` (a key declared with
      no body), or an object. */
  datatype Entry = Nullish | Declared(params: PackageParams)

  /** `serverless.service.provider`: its namespace ("" when unset) and its
      `overwrite` own property, if any. */
  datatype Provider = Provider(namespace: string, overwrite: Option<bool>)

  datatype Parameter = Parameter(key: string, value: Value)

  datatype PackageBody = PackageBody(parameters: seq<Parameter>)

  /** The descriptor handed to the deploy client; `overwrite == None` is a
      descriptor whose `overwrite` is `undefined`. */
  datatype Descriptor = Descriptor(
    name: string,
    namespace: string,
    overwrite: Option<bool>,
    package: Option<PackageBody>)

  datatype Error =
    | MissingPackagesSection
    | NullPackageParams(name: string)

  /** A string property is truthy when it is set and non-empty. */
  predicate Truthy(s: Option<string>) {
    s.Some? && s.value != ""
  }

  /** The text of the thrown error. */
  function Message(e: Error): (r: string)
    ensures e.MissingPackagesSection? ==> r == "Missing Packages section from OpenWhisk Resource Manager template"
    ensures e.NullPackageParams? ==> r == "Cannot read properties of null (reading 'namespace')"
  {
    match e
    case MissingPackagesSection => "Missing Packages section from OpenWhisk Resource Manager template"
    case NullPackageParams(_) => "Cannot read properties of null (reading 'namespace')"
  }

  function Keys(fields: Fields): (ks: seq<string>)
    ensures |ks| == |fields|
    ensures forall i :: 0 <= i < |fields| ==> ks[i] == fields[i].0
  {
    if fields == [] then [] else [fields[0].0] + Keys(fields[1..])
  }

  /** `fields[key]`: the value stored under `key`. */
  function Get(fields: Fields, key: string): Value
    requires key in Keys(fields)
  {
    if fields[0].0 == key then fields[0].1 else Get(fields[1..], key)
  }

  /** `Object.keys(fields).map(key => ({ key, value: fields[key] }))`. */
  function ParameterList(fields: Fields): (ps: seq<Parameter>)
    ensures |ps| == |fields|
    ensures forall i :: 0 <= i < |ps| ==> ps[i].key == fields[i].0
  {
    var ks := Keys(fields);
    seq(|ks|, i requires 0 <= i < |ks| => Parameter(ks[i], Get(fields, ks[i])))
  }

  ghost predicate DistinctKeys(fields: Fields) {
    forall i, j :: 0 <= i < j < |fields| ==> fields[i].0 != fields[j].0
  }

  lemma {:induction false} GetAt(fields: Fields, i: nat)
    requires DistinctKeys(fields) && i < |fields|
    ensures fields[i].0 in Keys(fields) && Get(fields, fields[i].0) == fields[i].1
  {
    if i > 0 {
      assert fields[i].0 == fields[1..][i - 1].0;
      GetAt(fields[1..], i - 1);
    }
  }

  /** The parameter list holds one `{key, value}` per key of the object, in its
      enumeration order, and each value is the object's value for that key. */
  lemma ParameterListExact(fields: Fields)
    requires DistinctKeys(fields)
    ensures var ps := ParameterList(fields);
            && |ps| == |fields|
            && (forall i :: 0 <= i < |ps| ==> ps[i] == Parameter(fields[i].0, fields[i].1))
            && (forall k :: k in Keys(fields) <==> exists i :: 0 <= i < |ps| && ps[i].key == k)
            && (forall i, j :: 0 <= i < j < |ps| ==> ps[i].key != ps[j].key)
  {
    var ps := ParameterList(fields);
    forall i | 0 <= i < |ps| ensures ps[i] == Parameter(fields[i].0, fields[i].1) {
      GetAt(fields, i);
    }
  }

  /** `compilePackage(name, params)`; a `null` body makes the property access
      on `params.namespace` throw. */
  function CompilePackage(provider: Provider, name: string, entry: Entry): (r: Result<Descriptor, Error>)
    ensures r.Failure? <==> entry.Nullish?
    ensures r.Failure? ==> r.error == NullPackageParams(name)
    ensures r.Success? ==> r.value.name == name
    ensures r.Success? && Truthy(entry.params.namespace) ==> r.value.namespace == entry.params.namespace.value
    ensures r.Success? && !Truthy(entry.params.namespace) ==> r.value.namespace == provider.namespace
    ensures r.Success? && entry.params.overwrite.Some? ==> r.value.overwrite == entry.params.overwrite
    ensures r.Success? && entry.params.overwrite.None? && provider.overwrite.None? ==> r.value.overwrite == Some(true)
    ensures r.Success? && entry.params.overwrite.None? && provider.overwrite.Some? ==> r.value.overwrite == None
    ensures r.Success? ==> (r.value.package.Some? <==> entry.params.parameters.Some?)
    ensures r.Success? && r.value.package.Some? ==>
              r.value.package.value.parameters == ParameterList(entry.params.parameters.value)
  {
    match entry
    case Nullish => Failure(NullPackageParams(name))
    case Declared(params) =>
      var namespace := if Truthy(params.namespace) then params.namespace.value else provider.namespace;
      var overwrite :=
        if params.overwrite.Some? then params.overwrite
        // the provider's own `overwrite` selects `params.overwrite`, which is unset here
        else if provider.overwrite.Some? then params.overwrite
        else Some(true);
      var package := if params.parameters.Some? then Some(PackageBody(ParameterList(params.parameters.value))) else None;
      Success(Descriptor(name, namespace, overwrite, package))
  }

  /** The provider's `overwrite` value never reaches a descriptor: only whether
      the property exists matters. */
  lemma ProviderOverwriteValueIgnored(namespace: string, a: bool, b: bool, name: string, entry: Entry)
    ensures CompilePackage(Provider(namespace, Some(a)), name, entry) == CompilePackage(Provider(namespace, Some(b)), name, entry)
  {
  }

  /** A compiled descriptor is `undefined`-free unless the quirk applies, and
      carries a non-empty namespace whenever the provider has one. */
  lemma CompiledDescriptorFields(provider: Provider, name: string, params: PackageParams)
    ensures var d := CompilePackage(provider, name, Declared(params)).value;
            && (d.overwrite.None? <==> params.overwrite.None? && provider.overwrite.Some?)
            && (provider.namespace != "" ==> d.namespace != "")
  {
  }

  /** `manifestPackages[pkge] = manifestPackages[pkge] || {}`. */
  function MergeOne(m: map<string, Entry>, p: string): (r: map<string, Entry>)
    ensures r.Keys == m.Keys + {p} && r[p].Declared?
    ensures p in m && m[p].Declared? ==> r[p] == m[p]
    ensures !(p in m && m[p].Declared?) ==> r[p] == Declared(EmptyParams)
    ensures forall k :: k in m && k != p ==> r[k] == m[k]
  {
    m[p := if p in m && m[p].Declared? then m[p] else Declared(EmptyParams)]
  }

  /** `packages.forEach(...)` at compile/packages/index.js:39: `MergeOne` for
      each derived package in turn. */
  function Merge(m: map<string, Entry>, derived: seq<string>): (r: map<string, Entry>)
    ensures m.Keys <= r.Keys
    ensures forall p :: p in derived ==> p in r && r[p].Declared?
  {
    if derived == [] then m else MergeOne(Merge(m, derived[..|derived| - 1]), derived[|derived| - 1])
  }

  /** Every derived package becomes a declared key; truthy entries and keys not
      derived keep their values; every other derived key gets an empty body; no
      other key appears. */
  lemma {:induction false} MergeSpec(m: map<string, Entry>, derived: seq<string>)
    ensures var r := Merge(m, derived);
            && r.Keys == m.Keys + (set p | p in derived)
            && (forall p :: p in derived ==> r[p].Declared?)
            && (forall k :: k in m && m[k].Declared? ==> r[k] == m[k])
            && (forall k :: k in m && k !in derived ==> r[k] == m[k])
            && (forall p :: p in derived && !(p in m && m[p].Declared?) ==> r[p] == Declared(EmptyParams))
  {
    if derived != [] {
      var init := derived[..|derived| - 1];
      MergeSpec(m, init);
      assert derived == init + [derived[|derived| - 1]];
    }
  }

  /** Merging the same derived packages twice changes nothing the second time. */
  lemma MergeIdempotent(m: map<string, Entry>, derived: seq<string>)
    ensures Merge(Merge(m, derived), derived) == Merge(m, derived)
  {
    var once := Merge(m, derived);
    MergeSpec(m, derived);
    MergeSpec(once, derived);
  }

  /** No package body of the manifest is `null`. */
  predicate AllDeclared(m: map<string, Entry>) {
    forall k :: k in m ==> m[k].Declared?
  }

  /** `Object.keys(manifest).forEach(...)` at compile/packages/index.js:96-98
      when no body is
      `null`: one compiled descriptor per key. */
  function CompileManifest(provider: Provider, m: map<string, Entry>): (r: map<string, Descriptor>)
    requires AllDeclared(m)
    ensures r.Keys == m.Keys
    ensures forall k :: k in r ==> r[k].name == k
  {
    map k | k in m :: CompilePackage(provider, k, m[k]).value
  }

  /** After the merge, every derived package compiles, and to the empty
      package's descriptor unless it was declared with a body. */
  lemma DerivedPackagesCompile(provider: Provider, m: map<string, Entry>, derived: seq<string>, p: string)
    requires p in derived
    ensures var r := Merge(m, derived);
            && p in r
            && CompilePackage(provider, p, r[p]).Success?
            && (!(p in m && m[p].Declared?) ==>
                  CompilePackage(provider, p, r[p]).value ==
                  Descriptor(p, provider.namespace, if provider.overwrite.Some? then None else Some(true), None))
  {
    MergeSpec(m, derived);
  }
}
