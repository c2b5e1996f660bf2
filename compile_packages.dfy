/** The plugin object `OpenWhiskCompilePackages` and the part of
    `serverless.service` it reads and writes. */
module CompilePackages {
  import opened Wrappers
  import opened ActionNames
  import opened Packages

  /** `serverless.service.resources`; only its `packages` section is modelled. */
  datatype Resources = Resources(packages: Option<map<string, Entry>>)

  /** `resources.packages`, or no packages when either is absent. */
  function ManifestOf(resources: Option<Resources>): (m: map<string, Entry>)
    ensures resources.None? || resources.value.packages.None? ==> m == map[]
  {
    if resources.Some? && resources.value.packages.Some? then resources.value.packages.value else map[]
  }

  class OpenWhiskCompilePackages {
    /** `serverless.service.provider`. */
    const provider: Provider
    /** The `name` of each function of `serverless.service`, "" where it has none. */
    const functionNames: seq<string>
    /** `serverless.service.resources`. */
    var resources: Option<Resources>
    /** `serverless.service.packages`: the output container. */
    var packages: Option<map<string, Descriptor>>

    constructor (provider: Provider, functionNames: seq<string>,
                 resources: Option<Resources>, packages: Option<map<string, Descriptor>>)
      ensures this.provider == provider && this.functionNames == functionNames
      ensures this.resources == resources && this.packages == packages
    {
      this.provider := provider;
      this.functionNames := functionNames;
      this.resources := resources;
      this.packages := packages;
    }

    /** `setup`: a fresh, empty output container. */
    method Setup()
      modifies this
      ensures packages == Some(map[])
      ensures resources == old(resources)
    {
      packages := Some(map[]);
    }

    /** `getActionPackages`: the packages the function names derive, each once,
        in the order of the first function that derives it. */
    method GetActionPackages() returns (r: seq<string>)
      ensures r == ActionPackages(functionNames)
      ensures NoDuplicates(r)
      ensures forall p :: p in r <==> exists i :: 0 <= i < |functionNames| && Derives(functionNames[i], p)
      ensures InFirstDerivationOrder(functionNames, r)
    {
      r := [];
      for i := 0 to |functionNames|
        invariant r == ActionPackages(functionNames[..i])
      {
        assert functionNames[..i + 1][..i] == functionNames[..i];
        var name := functionNames[i];
        if name != "" {
          var id := MatchPackage(name);
          if id.Some? {
            r := SetAdd(r, id.value);
          }
        }
      }
      assert functionNames[..|functionNames|] == functionNames;
      ActionPackagesDistinct(functionNames);
      ActionPackagesMembers(functionNames);
      ActionPackagesOrder(functionNames);
    }

    /** `mergeActionPackages`: with no derived packages nothing changes;
        otherwise `resources.packages` exists afterwards and is the merge of the
        old manifest with the derived packages. */
    method MergeActionPackages()
      modifies this
      ensures packages == old(packages)
      ensures ActionPackages(functionNames) == [] ==> resources == old(resources)
      ensures ActionPackages(functionNames) != [] ==>
                resources == Some(Resources(Some(Merge(ManifestOf(old(resources)), ActionPackages(functionNames)))))
    {
      var derived := GetActionPackages();
      if |derived| == 0 {
        return;
      }
      if resources.None? {
        resources := Some(Resources(None));
      }
      if resources.value.packages.None? {
        resources := Some(resources.value.(packages := Some(map[])));
      }
      for i := 0 to |derived|
        invariant resources == Some(Resources(Some(Merge(ManifestOf(old(resources)), derived[..i]))))
        invariant packages == old(packages)
      {
        assert derived[..i + 1][..i] == derived[..i];
        var manifest := MergeOne(resources.value.packages.value, derived[i]);
        resources := Some(Resources(Some(manifest)));
      }
      assert derived[..|derived|] == derived;
    }

    /** `compilePackages`: fails without an output container; otherwise writes
        the compiled descriptor of every manifest key into it and leaves its
        other keys alone. A `null` package body aborts the pass, leaving the
        descriptors written so far. */
    method CompilePackages() returns (outcome: Outcome<Error>)
      modifies this
      ensures resources == old(resources)
      ensures old(packages).None? ==> outcome == Fail(MissingPackagesSection) && packages == None
      ensures old(packages).Some? ==> (outcome.Pass? <==> AllDeclared(ManifestOf(resources)))
      ensures old(packages).Some? && outcome.Pass? ==>
                packages == Some(old(packages).value + CompileManifest(provider, ManifestOf(resources)))
      ensures old(packages).Some? && outcome.Fail? ==>
                var m := ManifestOf(resources);
                && outcome.error.NullPackageParams?
                && outcome.error.name in m && m[outcome.error.name].Nullish?
                && packages.Some? && old(packages).value.Keys <= packages.value.Keys
                && forall k :: k in packages.value ==>
                     || (k in old(packages).value && packages.value[k] == old(packages).value[k])
                     || (k in m && m[k].Declared? && packages.value[k] == CompilePackage(provider, k, m[k]).value)
    {
      if packages.None? {
        return Fail(MissingPackagesSection);
      }
      if resources.Some? && resources.value.packages.Some? {
        var manifest := resources.value.packages.value;
        var todo := manifest.Keys;
        while todo != {}
          invariant todo <= manifest.Keys
          invariant resources == old(resources)
          invariant packages.Some?
          invariant forall k :: k in manifest && k !in todo ==> manifest[k].Declared?
          invariant packages.value ==
                      old(packages).value + map k | k in manifest && k !in todo :: CompilePackage(provider, k, manifest[k]).value
          decreases todo
        {
          var pkge :| pkge in todo;
          var compiled := CompilePackage(provider, pkge, manifest[pkge]);
          if compiled.Failure? {
            return Fail(compiled.error);
          }
          packages := Some(packages.value[pkge := compiled.value]);
          todo := todo - {pkge};
        }
        assert packages.value == old(packages).value + CompileManifest(provider, manifest);
      } else {
        assert packages.value == old(packages).value + CompileManifest(provider, map[]);
      }
      return Pass;
    }

    /** The two hooks in the order the framework fires them:
        `before:package:compileEvents` runs `setup` then `mergeActionPackages`,
        and `package:compileEvents` runs `compilePackages`. Every package that
        a function name `pkg/action` derives ends up with a descriptor. */
    method CompileEvents() returns (outcome: Outcome<Error>)
      modifies this
      ensures var derived := ActionPackages(functionNames);
              resources == if derived == [] then old(resources)
                           else Some(Resources(Some(Merge(ManifestOf(old(resources)), derived))))
      ensures outcome.Pass? <==> AllDeclared(ManifestOf(resources))
      ensures outcome.Fail? ==>
                var m := ManifestOf(resources);
                && outcome.error.NullPackageParams?
                && outcome.error.name in m && m[outcome.error.name].Nullish?
                && packages.Some?
                && forall k :: k in packages.value ==>
                     k in m && m[k].Declared? && packages.value[k] == CompilePackage(provider, k, m[k]).value
      ensures outcome.Pass? ==> packages == Some(CompileManifest(provider, ManifestOf(resources)))
      ensures outcome.Pass? ==>
                forall p :: p in ActionPackages(functionNames) ==> p in packages.value && packages.value[p].name == p
    {
      Setup();
      MergeActionPackages();
      outcome := CompilePackages();
      if outcome.Pass? {
        assert map[] + CompileManifest(provider, ManifestOf(resources)) == CompileManifest(provider, ManifestOf(resources));
        forall p | p in ActionPackages(functionNames)
          ensures p in packages.value && packages.value[p].name == p
        {
          MergeSpec(ManifestOf(old(resources)), ActionPackages(functionNames));
        }
      }
    }
  }
}
