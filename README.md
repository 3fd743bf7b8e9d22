# cozka-rollup-create-dist-packagejson — a Dafny model of the manifest builder

The Rollup plugin `createDistPackageJson` (src/index.ts) writes a `package.json`
for the build output. While Rollup parses modules, the plugin collects every
imported module id whose text does not start with the input directory path
(a plain string-prefix test, so `/repo/packages/ab/x` is not collected when
the input directory is `/repo/packages/a`). When the bundle is
generated, it builds the output manifest in three steps:

1. It starts from the user's `content`, either a static object or a function
   of the development manifest.
2. It walks the dependency categories in `DEPENDENCIES_PROP_NAMES` order:
   `dependencies`, `peerDependencies`, `optionalDependencies`, then
   `devDependencies`, which is written to the output `dependencies`. For each
   category it resolves the collected imports against the declared table.
   Resolution picks the longest `/`-joined token prefix of the specifier that
   is declared. Workspace placeholders (`*`, `workspace:…`, `portal:…`) are
   replaced by the version found in the sibling-package index. The packages
   no earlier category claimed are then spread over the output field.
3. It copies each field of `inheritProps` that the draft lacks, or holds
   falsy, from the development manifest when the development value is truthy.

The project is organised in five modules:

- `Json` (json.dfy) holds JSON values, manifests, dependency tables,
  JavaScript truthiness and object spread.
- `Specifiers` (specifiers.dfy) models `split(/[/\\]/)` and `join('/')`, the
  ownership of a specifier by its longest declared prefix, and the
  `_getExternalDependencies` loops as methods.
- `Workspace` (workspace.dfy) models the `WORKSPACE_DEPS` pattern, the
  substitution function and the `_createDependencies` method. The lazy index
  build is counted by a ghost out-parameter.
- `Assembly` (assembly.dfy) models the category fold `Merged` with its
  closed-form lemmas, the merge loop, and field inheritance.
- `DistPackageJson` (plugin.dfy) models the plugin object as a class. It has
  the options as constants and the collected `imports` as a field. It
  provides `ModuleParsed`, `GenerateBundle`, and lemmas that tie the output
  back to the development manifest.

Behaviour of src/index.ts that a reader might not expect, and that the
model keeps:

- No specifier is excluded because of a file extension.
- Every token prefix down to one token is a candidate. Scoped packages get
  no special treatment.
- A resolved package overwrites a user entry of the same name in an output
  field. It is not the other way round.
- Placeholder substitution happens per category, before the merge, and only
  on resolved entries. User entries are never substituted.
- A placeholder must be the whole string. After `workspace:` or `portal:` it
  needs at least one more character, and none of them may be a line
  terminator.
- The sibling index is built at most once per `_createDependencies` call,
  so at most once per category, not once per run.
- Imports are resolved separately against each category's table, so one
  import can resolve to different packages in different categories
  (`OwnerDependsOnTable`). With `"dependencies": {"a": "1", "a/b": "2"}`,
  `"devDependencies": {"a": "3"}` and the import `a/b`, the `dependencies`
  category records `a/b` and the `devDependencies` category records `a`, so
  the output `dependencies` holds `"a": "3"` although `dependencies`
  declares `a` as `"1"`. A package only `devDependencies` declares is
  written only if some import resolves to it there.
- In `moduleParsed` the `_` test is applied to the input directory path,
  not to the imported id. For an absolute input directory it never fires
  (`CollectedFromAbsoluteDir`).

## Model

| member | source | states |
|---|---|---|
| Json.DeclaredTable | src/index.ts:139 | the table read from a category value holds exactly its string-valued entries, with those strings; a non-object reads as empty |
| Specifiers.Join | src/index.ts:262 | `join('/')`: the tokens with one `/` between neighbours; inverse of `Split` on separator-free tokens (`SplitJoin`) |
| Specifiers.Split | src/index.ts:260 | splitting yields at least one token and no token contains `/` or `\` |
| Specifiers.JoinSplit | src/index.ts:260-262 | re-joining the tokens with `/` gives the specifier back with every `\` turned into `/` |
| Specifiers.SplitJoin | src/index.ts:260-262 | joining separator-free tokens and splitting again gives the same tokens |
| Specifiers.OwnerUnique | src/index.ts:261-266 | a specifier has at most one owner (longest declared token prefix) |
| Specifiers.OwnerExists | src/index.ts:261-267 | a specifier has an owner exactly when some token prefix of it is declared |
| Specifiers.ResolvePackage | src/index.ts:260-267 | the longest-first search returns the owner when there is one, and nothing exactly when no token prefix is declared |
| Specifiers.GetExternalDependencies | src/index.ts:254-270 | a package is in the result iff some import is owned by it; every key is declared and carries the declared version |
| Specifiers.ScopedSubpathOwner | src/index.ts:260-266 | a deep import `scope/name/sub` is owned by the declared `scope/name` unless the whole specifier is declared |
| Specifiers.OwnerDependsOnTable | src/index.ts:259-266 | the same import `a/b` is owned by `a/b` in a table declaring it and by `a` in a table declaring only `a` |
| Specifiers.BareOwner | src/index.ts:260-266 | a declared separator-free specifier owns itself |
| Workspace.IsWorkspaceVersion | src/index.ts:56 | `WORKSPACE_DEPS.test` as used at line 227: `*`, or `workspace:`/`portal:` followed by a non-empty tail with no line terminator, matched over the whole string |
| Workspace.WorkspaceVersionShape | src/index.ts:56 | a version is a placeholder iff it is `*` or `workspace:`/`portal:` followed by one or more non-line-terminator characters |
| Workspace.WorkspaceVersionExamples | src/index.ts:56 | `*`, `workspace:*`, `workspace:^1.2.0`, `portal:../lib` match; `workspace:`, `portal:`, `**`, `^1.0.0`, the empty string and a value with a newline do not |
| Workspace.Substituted | src/index.ts:223-237 | substitution keeps the key set; with `keep` nothing changes; non-placeholders and packages without a truthy sibling version keep their version; the rest take the sibling version |
| Workspace.SubstitutedIdempotent | src/index.ts:223-237 | substituting twice is the same as once |
| Workspace.SubstitutionExample | src/index.ts:223-237 | `workspace:*` becomes the sibling's `3.2.1`; it stays with `keep` or without a sibling |
| Workspace.ExternalDependenciesEmpty | src/index.ts:254-270 | the resolved table is empty iff no import has a declared token prefix |
| Workspace.CreatedDependencies | src/index.ts:212-245 | `undefined` iff the category is absent or no import resolves; otherwise a non-empty table whose keys are declared and are exactly the owned packages |
| Workspace.ReplaceWorkspaceVersions | src/index.ts:225-236 | the loop computes the substitution; the sibling index is built at most once, and exactly when some value is a placeholder |
| Workspace.CreateDependencies | src/index.ts:212-245 | the method returns the specified table or `undefined`; the index is built at most once, and only when substitution is on and a resolved package is a placeholder |
| Assembly.DependencyPropNames | src/index.ts:79-84 | the four categories in processing order, `devDependencies` written to `dependencies` |
| Assembly.InheritProps | src/index.ts:61-74 | the twelve fields inherited by default, in order |
| Assembly.InitialDraft | src/index.ts:130-133 | the draft is `content(orgPackageJson)` for a function, a copy of `content` otherwise |
| Assembly.DeclaredAt | src/index.ts:139 | the category value is used only when truthy (the `orgDependencies ?` test at line 219); a falsy or missing one is `None` and resolves nothing |
| Assembly.ClaimedBeforeMeans | src/index.ts:136-150 | `allDeps` before category k holds exactly the packages of earlier categories |
| Assembly.AddGroup | src/index.ts:152-157 | a category with no new package leaves the draft unchanged; otherwise only its output field changes, to the old entries spread then the new packages |
| Assembly.GainedFromEarliest | src/index.ts:136-158 | a package an output field gains comes from the earliest category having it, which writes to that field, with that category's version |
| Assembly.EarliestCategoryWins | src/index.ts:136-158 | the earliest category having a package makes its output field gain it with its version |
| Assembly.AtMostOneGroup | src/index.ts:136-158 | no package is gained by two output fields |
| Assembly.GainedOnlyFromDists | src/index.ts:137-157 | only fields some category writes to gain anything |
| Assembly.MergedLookup | src/index.ts:152-157 | after the merge a field exists iff the draft had it or it gained packages; a field that gained nothing is untouched; its entries are the user's overwritten by the gained ones |
| Assembly.UserEntriesKept | src/index.ts:153-156 | a user entry survives unless a gained package has its name; gained packages carry their resolved version |
| Assembly.ClaimNew | src/index.ts:145-151 | the inner loop collects exactly the table's entries not in `allDeps` and adds all the table's keys to `allDeps` |
| Assembly.MergeCategory | src/index.ts:144-158 | one category step claims the table's keys and applies `AddGroup` with the unclaimed entries |
| Assembly.MergeDependencies | src/index.ts:136-159 | the category loop yields the fold `Merged` over the resolved tables in category order |
| Assembly.InheritedChanges | src/index.ts:162-168 | inheritance removes nothing; a field is copied from the development manifest exactly when it is listed, falsy or missing in the draft and truthy in the development manifest; a truthy draft value is never replaced |
| Assembly.InheritedIdempotent | src/index.ts:162-168 | inheriting twice is the same as once |
| Assembly.InheritedStep | src/index.ts:163-167 | one more listed field extends the closed form by one conditional copy |
| Assembly.InheritFields | src/index.ts:162-168 | the loop yields the closed-form inheritance over the listed fields |
| Assembly.InheritanceExample | src/index.ts:162-168 | a `license` missing from the draft is taken from the development manifest |
| DistPackageJson.IsCollectedImport | src/index.ts:109-112 | an id is collected when it does not start with the input directory path and that path does not start with `_` |
| DistPackageJson.CollectedImports | src/index.ts:108-112 | the set of ids of one module that pass the filter |
| DistPackageJson.CollectedFromAbsoluteDir | src/index.ts:106-117 | for an absolute input directory, exactly the ids not starting with it are collected |
| DistPackageJson.ResolvedEntry | src/index.ts:212-245 | an entry of a category's resolved table comes from a present category that declares the package, is owned by a collected import, and holds the declared version or, for a substituted placeholder, the sibling version |
| DistPackageJson.GainedIsDeclared | src/index.ts:136-158 | every package an output field gains comes from the earliest category whose resolved table has it; that category is present, writes to the field and declares the package; a collected import resolves to it; the written version is the declared one, or the sibling version when a placeholder was substituted |
| DistPackageJson.DevDependenciesFoldIntoDependencies | src/index.ts:79-84 | over the per-category resolved tables: a package that only the resolved `devDependencies` table has (besides, possibly, the resolved `dependencies` one) lands in output `dependencies`; if the resolved `dependencies` table also has it, that version wins |
| DistPackageJson.Plugin.constructor | src/index.ts:92-101 | unset options default to `{}`, `INHERIT_PROPS` and falsy; no import is collected yet |
| DistPackageJson.Plugin.ModuleParsed | src/index.ts:106-117 | the collected imports grow by exactly the ids passing the filter; a missing id list adds nothing |
| DistPackageJson.Plugin.GenerateBundle | src/index.ts:118-168 | the manifest handed on is the initial draft, merged over the four categories, then inherited |

## Left out

- File I/O is not modelled: reading the development manifest, writing the output file, `fs.ensureDirSync`, and choosing the output directory. The development manifest is a parameter of `GenerateBundle`.
- The fast-glob scan of `_getPckageVersions` is not modelled. The sibling index is a parameter. When two siblings share a name, the later one wins in the source; that ordering is not modelled.
- `processor`, `sortPackageJson` and the JSON formatting of the output are not modelled. `GenerateBundle` returns the draft handed to `processor`.
- `path.normalize(path.resolve(inputDir))` is not modelled. The resolved input directory path is a constructor parameter.
- The build scripts (scripts/) and the prettier configuration are not part of this model.
- JavaScript `in` also sees inherited prototype members such as `constructor`. The model only sees the manifest's own keys.
- DistPackageJson.Plugin.GenerateBundle: a `content` function is assumed to leave its argument untouched and to return a fresh object. In the source it receives the development manifest by reference (lines 130-133). A callback that deletes or changes fields of its argument changes what line 139 and line 164 read: after `delete pkg.devDependencies` no dev-only package is resolved, and after `delete pkg.license` no `license` is inherited, while the model still resolves and inherits from the manifest as it was read. A callback that returns its argument makes the draft and the development manifest one object, so the inheritance test at line 164 never copies anything; the model does not capture that aliasing.
- Json.DeclaredTable: category entries whose version is not a string are dropped. This can change the owner, not only the version: with `{"a/b": 1, "a": "^1"}` declared and the import `a/b`, the source records `"a/b": 1` (lines 263-265) while the model records `"a": "^1"`.
- Json.DeclaredTable: a truthy category value that is a string, a non-zero number or `true` reads as an empty table. In the source, `pkg in orgDependencies` at line 263 then throws a TypeError as soon as there is one import, which aborts `generateBundle`; the model does not capture that failure.
- Json.DeclaredTable: a category value that is an array also reads as an empty table. In the source `in` does not throw on an array: it sees the indices, `length` and the Array.prototype members (`map`, `flat`, `includes`, …). So `"dependencies": ["x"]` with the import `0` records `"0": "x"`, and the import `flat` records a function, which the JSON output then drops.
- Json.Spread: spreading a string or an array is modelled as spreading nothing. JavaScript would spread its indices.
- Numbers are integers. NaN and floating point are not modelled; they only matter for the truthiness of a field.
- An `inheritProps` that is `null` would skip inheritance. It is outside the option's declared type and is not modelled.
- Workspace.CreateDependencies: `scans` counts builds of the index within one call. Builds across categories are not shared, which matches the source.
