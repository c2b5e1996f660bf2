# OpenWhisk package compiler, modelled in Dafny

This project models the package compiler of the Serverless OpenWhisk plugin,
the class `OpenWhiskCompilePackages` in `compile/packages/index.js`. It runs in
two lifecycle hooks. Before events are compiled, `setup` empties the output
container `service.packages`, and `mergeActionPackages` declares one package for
each `pkg/action` function name. During event compilation, `compilePackages`
turns every package of `resources.packages` into a descriptor for the deploy
client. The descriptor carries a name, a namespace, an overwrite flag and an
optional parameter list.

Files:

- `wrappers.dfy`: `Option`, `Result` and `Outcome`. `None` stands for
  JavaScript's `undefined`, and `Failure`/`Fail` for a thrown error.
- `action_names.dfy` (module `ActionNames`): the regular expression
  `/^(.+)\/.+$/` as `MatchPackage`. The derived package list is the
  specification function `ActionPackages`, with lemmas that it has no
  duplicates, what its members are, and what order they come in.
- `packages.dfy` (module `Packages`): manifest entries, the provider and
  descriptors as datatypes. Also `CompilePackage`, the merge step as the
  function `Merge` with its lemmas, and `CompileManifest`.
- `compile_packages.dfy` (module `CompilePackages`): the class
  `OpenWhiskCompilePackages`. Its fields are the parts of `serverless.service`
  that the plugin reads and writes. `Setup` assigns the output container.
  `GetActionPackages`, `MergeActionPackages` and `CompilePackages` are methods
  with loops, proved against the functions above. `CompileEvents` runs them in
  the order the two hooks fire.

Modelling choices:

- A function without a `name` has the name `""`. The `filter` at compile/packages/index.js:49 drops
  it.
- The regular expression is modelled exactly. It matches only when the name has
  no JavaScript line terminator (`\n`, `\r`, U+2028, U+2029) and has a `/` with at
  least one character on each side. Group 1 is then everything before the
  rightmost such `/`. `IsCapture` describes every possible capture, and
  `MatchPackage` returns the longest one, which is what the greedy match gives.
- A value of `resources.packages` is either `Nullish` or `Declared(params)`.
  `Nullish` stands for `null` or `undefined`, which is what a package key with no
  body gives. The merge replaces a `Nullish` or missing entry with `{}`. When
  `compilePackage` gets a `null` body, reading `params.namespace` throws a
  `TypeError`, and the model returns `NullPackageParams`. `compilePackages` then
  stops, and the descriptors it already wrote stay written.
- `overwrite` is an `Option<bool>`, and `None` means the descriptor's
  `overwrite` is `undefined`. compile/packages/index.js:66-67 is modelled as written: if the
  provider has an `overwrite` property and the package does not, the result is
  the package's own (unset) `overwrite`, not the provider's value.
  `ProviderOverwriteValueIgnored` proves that the provider's value never reaches
  a descriptor. So a provider-level `overwrite` is never used as a package's
  default, and the model follows the code (compile/packages/index.js:66-67).
- The `parameters` object is a sequence of key/value pairs in the order
  `Object.keys` lists them.
- `resources.packages` and `service.packages` are Dafny maps.
  `compilePackages` visits the manifest keys in an order the model does not fix.

## Model

| member | source | states |
|---|---|---|
| `ActionNames.MatchPackage` | compile/packages/index.js:51 | The result is a capture of the regex exactly when one exists. That capture is at least as long as every other capture, so it ends at the rightmost `/` with a character on each side. |
| `ActionNames.MatchPackageIsLongestCapture` | compile/packages/index.js:51 | `MatchPackage(name) == Some(p)` if and only if `p` is a capture and no capture is longer. |
| `ActionNames.MatchPackageExamples` | compile/packages/index.js:51 | `"a/b/"` gives `"a"`. `"x/y/z"` gives `"x/y"`. `"/a"`, `"a"` and a name with a newline give nothing. |
| `ActionNames.SetAdd` | compile/packages/index.js:52 | Adding to the insertion-ordered set keeps the old elements in place and contains the new one. Adding an element already present changes nothing, and a list without duplicates stays without duplicates. |
| `ActionNames.ActionPackages` | compile/packages/index.js:44-56 | The derived list is never longer than the function list. Its members, distinctness and order are the three lemmas below. |
| `ActionNames.ActionPackagesDistinct` | compile/packages/index.js:45-55 | The derived package list has no duplicates, because it is built through a `Set`. |
| `ActionNames.ActionPackagesMembers` | compile/packages/index.js:47-53 | A package is in the list if and only if some function with a non-empty name derives it. |
| `ActionNames.ActionPackagesOrder` | compile/packages/index.js:45-55 | Packages come out in the order of the first function name that derives each one. |
| `CompilePackages.OpenWhiskCompilePackages.GetActionPackages` | compile/packages/index.js:44-56 | The loop returns `ActionPackages` of the function names. The result has no duplicates, contains exactly the derived packages, and is in first-derivation order. |
| `Packages.CompilePackage` | compile/packages/index.js:58-82 | A `null` body fails, and otherwise the call succeeds. The name is the key. The namespace is `params.namespace` if truthy, else the provider's. `overwrite` is the package's own value if it has one, else `true` if the provider has none, else `undefined`. The `package` field is present exactly when `parameters` is truthy, and then holds the parameter list. |
| `Packages.ParameterList` | compile/packages/index.js:72-74 | One entry per key of the object, keyed in `Object.keys` order. |
| `Packages.ParameterListExact` | compile/packages/index.js:70-75 | The list has one `{key, value}` per key of the object, in enumeration order, with no key repeated. Each value is the object's value for that key. |
| `Packages.ProviderOverwriteValueIgnored` | compile/packages/index.js:64-68 | The descriptor depends only on whether the provider's `overwrite` exists, never on its value. |
| `Packages.CompiledDescriptorFields` | compile/packages/index.js:59-68 | `overwrite` is `undefined` exactly when the package has no own `overwrite` and the provider has one. A non-empty provider namespace gives a non-empty descriptor namespace. |
| `Packages.MergeOne` | compile/packages/index.js:40 | One step of the `forEach`: the key is present and declared afterwards, a truthy entry is kept, a missing or `null` one becomes `{}`, and every other key is unchanged. |
| `Packages.Merge` | compile/packages/index.js:39-41 | The `forEach` over the derived packages. No key is lost, and every derived package is a declared key. |
| `Packages.MergeSpec` | compile/packages/index.js:37-41 | After the merge: every derived package is a declared key. Truthy entries and keys that were not derived are unchanged. Every other derived key is `{}`. No other key appears. |
| `Packages.MergeIdempotent` | compile/packages/index.js:39-41 | Merging the same derived packages a second time changes nothing. |
| `Packages.CompileManifest` | compile/packages/index.js:95-98 | With no `null` body, the compiled map has exactly the manifest's keys, and each descriptor is named after its key. |
| `Packages.DerivedPackagesCompile` | compile/packages/index.js:39-41 | After the merge, every derived package compiles. A package that was not declared with a body compiles to the default descriptor: provider namespace, default overwrite, no parameters. |
| `Packages.Message` | compile/packages/index.js:91-92 | A missing output container gives "Missing Packages section from OpenWhisk Resource Manager template". A `null` body gives the `TypeError` text for reading `namespace`. |
| `CompilePackages.ManifestOf` | compile/packages/index.js:95 | A missing `resources` or `resources.packages` counts as an empty manifest. |
| `CompilePackages.OpenWhiskCompilePackages.Setup` | compile/packages/index.js:19-23 | `service.packages` becomes an empty map, and the manifest is untouched. |
| `CompilePackages.OpenWhiskCompilePackages.MergeActionPackages` | compile/packages/index.js:25-42 | With no derived packages, nothing changes, and neither `resources` nor `resources.packages` is created. Otherwise `resources.packages` exists and equals `Merge` of the old manifest (empty if absent) with the derived packages. The output container is untouched. |
| `CompilePackages.OpenWhiskCompilePackages.CompilePackages` | compile/packages/index.js:84-102 | With no output container, the call fails with the missing-section error and changes nothing. Otherwise it succeeds if and only if no package body is `null`. On success, the output is the old output overridden by one compiled descriptor per manifest key, and nothing is written when the manifest is absent. On failure, the error names a `null` package, and every output key holds either its old value or its compiled descriptor. The manifest is never changed. |
| `CompilePackages.OpenWhiskCompilePackages.CompileEvents` | compile/packages/index.js:11-16 | `setup`, `mergeActionPackages`, then `compilePackages`. `resources` becomes the merged manifest, or stays as it was when nothing is derived. The pass succeeds exactly when no package body is `null`. It then leaves exactly one descriptor per manifest key, and every package derived from a `pkg/action` function name is among them, under its own name. On failure the error names a `null` body of the merged manifest, and every descriptor written is the compiled descriptor of a declared manifest key. |

## Left out

- Hook registration and the Bluebird promise chain (compile/packages/index.js:11-16 and 101) are not modelled. `CompileEvents` models only the order in which the hooks run the methods.
- Verbose logging through `serverless.cli.log` (compile/packages/index.js:77-79 and 85) is not modelled, because it is output with no effect on the results.
- `serverless.getProvider` and `serverless.classes.Error` are host objects and are not modelled. A thrown error is an `Error` value, and `Message` gives its text.
- Packages.Message: gives the `null` wording of V8's `TypeError` for every `Nullish` body. For an `undefined` body V8 says "undefined" instead of "null", and other engines word the error differently.
- Falsy entries of `resources.packages` other than `null` and `undefined` (`false`, `0`, `""`) are not modelled. They do not throw in `compilePackage`.
- `params.namespace` is modelled only as a string or absent. `params.overwrite` is modelled only as a boolean, and `parameters` only as an object or absent. A function `name` is modelled only as a string; a truthy non-string name such as `123` would make `func.name.match` throw a `TypeError`. Other JavaScript types are not modelled.
- Own versus inherited properties are a single "has own `overwrite`" flag. Prototype lookup is not modelled.
- An unset provider namespace is the empty string. An `undefined` namespace and an empty one are not told apart.
- JSON numbers in parameter values are integers. Floating point is not modelled.
- `Object.keys` puts integer-like keys first. The parameter pairs are taken to be already in enumeration order.
- CompilePackages.OpenWhiskCompilePackages.CompilePackages: the manifest is a map, so the order in which manifest keys are visited is not fixed. The source writes exactly the keys before the first `null` body in `Object.keys` order, and the error is for that key. On failure the contract says only that each output key holds its old value or its compiled descriptor, and that the error names some `null` body.
- Fields of `resources` other than `packages`, such as rules, are not modelled.
- The rule compiler is not part of this model. Only its test file is available, not its implementation.
