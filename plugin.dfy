/** The plugin object returned by `createDistPackageJson` (src/index.ts):
    its options, the set of imports it collects while modules are parsed, and
    the manifest it assembles when the bundle is generated. */
module DistPackageJson {
  import opened Json
  import opened Specifiers
  import opened Workspace
  import opened Assembly

  /** The options the core reads; `None` is an option left unset. */
  datatype Options = Options(content: Option<Content>, inheritProps: Option<seq<string>>, keepWorkspaceDeps: Option<bool>)

  predicate StartsWith(s: string, prefix: string) {
    |prefix| <= |s| && s[..|prefix|] == prefix
  }

  /** The filter of `moduleParsed`: the id does not start with the input
      directory path, and the input directory path does not start with `_`. */
  predicate IsCollectedImport(id: string, inputDirPath: string) {
    !StartsWith(id, inputDirPath) && !StartsWith(inputDirPath, "_")
  }

  function CollectedImports(ids: seq<string>, inputDirPath: string): set<string> {
    set id | id in ids && IsCollectedImport(id, inputDirPath)
  }

  /** For an absolute input directory the `_` test never fires: exactly the
      ids outside the input directory are collected. */
  lemma CollectedFromAbsoluteDir(ids: seq<string>, inputDirPath: string, id: string)
    requires inputDirPath != "" && inputDirPath[0] == '/'
    ensures id in CollectedImports(ids, inputDirPath) <==> id in ids && !StartsWith(id, inputDirPath)
  {
    assert inputDirPath[..1] != "_";
  }

  /** The manifest `generateBundle` writes, before `processor` and sorting:
      the initial draft, the categories merged in `DEPENDENCIES_PROP_NAMES`
      order, then the listed fields inherited. */
  ghost function DistManifest(content: Content, org: Manifest, imports: set<string>, siblings: Table, keep: bool,
                              props: seq<string>): Manifest
  {
    var cats := DependencyPropNames;
    var merged := Merged(InitialDraft(content, org), Dists(cats), ResolvedTables(org, imports, siblings, keep, cats), |cats|);
    Inherited(merged, org, props)
  }

  /** An entry of a category's resolved table: the category is present, it
      declares the package, some collected import resolves to it, and the
      entry holds the declared version, or the sibling version when a
      placeholder was substituted. */
  lemma ResolvedEntry(org: Manifest, imports: set<string>, siblings: Table, keep: bool, j: nat, p: string)
    requires j < 4 && p in ResolvedTables(org, imports, siblings, keep, DependencyPropNames)[j]
    ensures FieldIsTruthy(org, DependencyPropNames[j].dev)
    ensures var d := DeclaredTable(org[DependencyPropNames[j].dev]);
      && p in d
      && (exists item :: item in imports && IsOwner(item, p, d))
      && ResolvedTables(org, imports, siblings, keep, DependencyPropNames)[j][p] ==
         (if !keep && IsWorkspaceVersion(d[p]) && HasSiblingVersion(siblings, p) then siblings[p] else d[p])
  {
    var cats := DependencyPropNames;
    var created := CreatedDependencies(DeclaredAt(org, cats[j].dev), imports, siblings, keep);
    assert created.Some?;
    var d := DeclaredTable(org[cats[j].dev]);
    assert created.value == Substituted(ExternalDependencies(imports, d), siblings, keep);
    assert p in ExternalDependencies(imports, d);
  }

  /** Every package an output field gains comes from the earliest category
      whose resolved table has it; that category is present and writes to
      the field, declares the package, some collected import resolves to it,
      and the field holds the declared version, or the sibling version when
      a placeholder was substituted. */
  lemma GainedIsDeclared(org: Manifest, imports: set<string>, siblings: Table, keep: bool, f: string, p: string)
    requires p in Gained(Dists(DependencyPropNames), ResolvedTables(org, imports, siblings, keep, DependencyPropNames), f, 4)
    ensures var tables := ResolvedTables(org, imports, siblings, keep, DependencyPropNames);
      var gained := Gained(Dists(DependencyPropNames), tables, f, 4);
      exists j :: (0 <= j < 4 && DependencyPropNames[j].dist == f && FieldIsTruthy(org, DependencyPropNames[j].dev) &&
        (forall i :: 0 <= i < j ==> p !in tables[i]) &&
        var d := DeclaredTable(org[DependencyPropNames[j].dev]);
        p in d &&
        (exists item :: item in imports && IsOwner(item, p, d)) &&
        gained[p] == (if !keep && IsWorkspaceVersion(d[p]) && HasSiblingVersion(siblings, p) then siblings[p] else d[p]))
  {
    var cats := DependencyPropNames;
    var tables := ResolvedTables(org, imports, siblings, keep, cats);
    GainedFromEarliest(Dists(cats), tables, f, 4, p);
    var j :| 0 <= j < 4 && Dists(cats)[j] == f && p in tables[j] &&
      (forall i :: 0 <= i < j ==> p !in tables[i]) && Gained(Dists(cats), tables, f, 4)[p] == tables[j][p];
    ResolvedEntry(org, imports, siblings, keep, j, p);
  }

  /** Over the per-category resolved tables: a package that among the tables
      of `dependencies`, `peerDependencies`, `optionalDependencies` and
      `devDependencies` only the `devDependencies` one has, or only that one
      and the `dependencies` one, is written to `dependencies`; if the resolved
      `dependencies` table also has it, that version wins. */
  lemma DevDependenciesFoldIntoDependencies(tables: seq<Table>, p: string)
    requires |tables| == 4
    requires p in tables[3] && p !in tables[1] && p !in tables[2]
    ensures p in Gained(Dists(DependencyPropNames), tables, "dependencies", 4)
    ensures Gained(Dists(DependencyPropNames), tables, "dependencies", 4)[p] == if p in tables[0] then tables[0][p] else tables[3][p]
  {
    var dists := Dists(DependencyPropNames);
    if p in tables[0] {
      EarliestCategoryWins(dists, tables, 4, 0, p);
    } else {
      EarliestCategoryWins(dists, tables, 4, 3, p);
    }
  }

  class Plugin {
    const content: Content
    const inheritProps: seq<string>
    /** `path.normalize(path.resolve(inputDir))`, computed by the caller. */
    const inputDirPath: string
    const keepWorkspaceDeps: bool
    /** The ids collected by `moduleParsed`. */
    var imports: set<string>

    /** `createDistPackageJson(options)`: unset options take their defaults
        (`{}`, `INHERIT_PROPS`, falsy) and no import is collected yet. */
    constructor (options: Options, inputDirPath: string)
      ensures content == options.content.GetOr(Static(map[]))
      ensures inheritProps == options.inheritProps.GetOr(InheritProps)
      ensures keepWorkspaceDeps == options.keepWorkspaceDeps.GetOr(false)
      ensures this.inputDirPath == inputDirPath
      ensures imports == {}
    {
      content := options.content.GetOr(Static(map[]));
      inheritProps := options.inheritProps.GetOr(InheritProps);
      keepWorkspaceDeps := options.keepWorkspaceDeps.GetOr(false);
      this.inputDirPath := inputDirPath;
      imports := {};
    }

    /** `moduleParsed`: add every imported id that passes the filter; a
        missing `importedIds` adds nothing. */
    method ModuleParsed(importedIds: Option<seq<string>>)
      modifies this`imports
      ensures imports == old(imports) + CollectedImports(importedIds.GetOr([]), inputDirPath)
    {
      var ids := importedIds.GetOr([]);
      for i := 0 to |ids|
        invariant imports == old(imports) + CollectedImports(ids[..i], inputDirPath)
      {
        var id := ids[i];
        assert ids[..i + 1] == ids[..i] + [id];
        if !StartsWith(id, inputDirPath) && !StartsWith(inputDirPath, "_") {
          imports := imports + {id};
        }
      }
      assert ids[..|ids|] == ids;
    }

    /** `generateBundle`, given the development manifest and the sibling
        version index: the manifest handed to `processor`. */
    method GenerateBundle(org: Manifest, siblings: Table) returns (packageJson: Manifest)
      ensures packageJson == DistManifest(content, org, imports, siblings, keepWorkspaceDeps, inheritProps)
    {
      var draft := InitialDraft(content, org);
      packageJson := MergeDependencies(draft, org, imports, siblings, keepWorkspaceDeps, DependencyPropNames);
      packageJson := InheritFields(packageJson, org, inheritProps);
    }
  }
}
