/** The manifest assembly of `generateBundle` (src/index.ts): the ordered
    category merge and field inheritance. */
module Assembly {
  import opened Json
  import opened Workspace

  /** A source category of the development manifest and the output field it
      is written to. */
  datatype Category = Category(dev: string, dist: string)

  /** `DEPENDENCIES_PROP_NAMES`: the categories in processing order;
      `devDependencies` folds into the output `dependencies`. */
  const DependencyPropNames: seq<Category> := [
    Category("dependencies", "dependencies"),
    Category("peerDependencies", "peerDependencies"),
    Category("optionalDependencies", "optionalDependencies"),
    Category("devDependencies", "dependencies")
  ]

  /** `INHERIT_PROPS`: the fields copied from the development manifest by default. */
  const InheritProps: seq<string> := [
    "name", "version", "description", "repository", "bugs", "homepage",
    "author", "contributors", "license", "type", "engines", "keywords"
  ]

  /** The `content` option: a static partial manifest or a function of the
      development manifest, taken to leave its argument untouched and to
      return a fresh object. */
  datatype Content = Static(fields: Manifest) | Derived(make: Manifest -> Manifest)

  /** The starting draft: `content(orgPackageJson)` or a copy of `content`. */
  function InitialDraft(content: Content, org: Manifest): Manifest {
    match content
    case Static(fields) => fields
    case Derived(make) => make(org)
  }

  /** `orgPackageJson[dev]` as a declared table; a falsy value is absent. */
  function DeclaredAt(org: Manifest, dev: string): Option<Table> {
    if FieldIsTruthy(org, dev) then Some(DeclaredTable(org[dev])) else None
  }

  function Dists(cats: seq<Category>): (dists: seq<string>)
    ensures |dists| == |cats|
    ensures forall k :: 0 <= k < |cats| ==> dists[k] == cats[k].dist
  {
    seq(|cats|, k requires 0 <= k < |cats| => cats[k].dist)
  }

  /** The table `_createDependencies` yields for each category, with
      `undefined` read as the empty table. */
  ghost function ResolvedTables(org: Manifest, imports: set<string>, siblings: Table, keep: bool, cats: seq<Category>)
    : (tables: seq<Table>)
    ensures |tables| == |cats|
  {
    seq(|cats|, k requires 0 <= k < |cats| =>
      CreatedDependencies(DeclaredAt(org, cats[k].dev), imports, siblings, keep).GetOr(map[]))
  }

  // ---------------------------------------------------------------------
  // The category merge, stated over the per-category tables

  /** The packages of the categories before `k`: the `allDeps` set. */
  ghost function ClaimedBefore(tables: seq<Table>, k: nat): set<string>
    requires k <= |tables|
  {
    if k == 0 then {} else ClaimedBefore(tables, k - 1) + tables[k - 1].Keys
  }

  /** A package is claimed before `k` exactly when an earlier category has it. */
  lemma {:induction false} ClaimedBeforeMeans(tables: seq<Table>, k: nat, p: string)
    requires k <= |tables|
    ensures p in ClaimedBefore(tables, k) <==> exists j :: 0 <= j < k && p in tables[j]
  {
    if k > 0 {
      ClaimedBeforeMeans(tables, k - 1, p);
    }
  }

  /** The entries of a table whose package is not yet claimed. */
  function Unclaimed(table: Table, claimed: set<string>): Table {
    map p | p in table && p !in claimed :: table[p]
  }

  /** The packages of category `k` that no earlier category has: `pkgs`. */
  ghost function Fresh(tables: seq<Table>, k: nat): Table
    requires k < |tables|
  {
    Unclaimed(tables[k], ClaimedBefore(tables, k))
  }

  /** The entries output field `f` gains from the categories before `k`. */
  ghost function Gained(dists: seq<string>, tables: seq<Table>, f: string, k: nat): Table
    requires |dists| == |tables| && k <= |tables|
  {
    if k == 0 then map[]
    else Gained(dists, tables, f, k - 1) + (if dists[k - 1] == f then Fresh(tables, k - 1) else map[])
  }

  /** One category's contribution: when it has new packages, they are spread
      over output field `dist`, after the entries already there. */
  function AddGroup(current: Manifest, dist: string, pkgs: Table): (r: Manifest)
    ensures pkgs == map[] ==> r == current
    ensures pkgs != map[] ==> r.Keys == current.Keys + {dist} && Spread(r[dist]) == Spread(Field(current, dist)) + AsValues(pkgs)
    ensures forall f :: f in current && f != dist ==> f in r && r[f] == current[f]
  {
    if pkgs == map[] then current
    else current[dist := Obj(Spread(Field(current, dist)) + AsValues(pkgs))]
  }

  /** The draft after the categories before `k` have been processed. */
  ghost function Merged(draft: Manifest, dists: seq<string>, tables: seq<Table>, k: nat): Manifest
    requires |dists| == |tables| && k <= |tables|
  {
    if k == 0 then draft
    else AddGroup(Merged(draft, dists, tables, k - 1), dists[k - 1], Fresh(tables, k - 1))
  }

  /** A package gained by field `f` comes from the earliest category that has
      it, that category writes to `f`, and it keeps that category's version. */
  lemma {:induction false} GainedFromEarliest(dists: seq<string>, tables: seq<Table>, f: string, k: nat, p: string)
    requires |dists| == |tables| && k <= |tables|
    requires p in Gained(dists, tables, f, k)
    ensures exists j :: (0 <= j < k && dists[j] == f && p in tables[j] &&
      (forall i :: 0 <= i < j ==> p !in tables[i]) && Gained(dists, tables, f, k)[p] == tables[j][p])
  {
    var prev := Gained(dists, tables, f, k - 1);
    if dists[k - 1] == f && p in Fresh(tables, k - 1) {
      ClaimedBeforeMeans(tables, k - 1, p);
    } else {
      GainedFromEarliest(dists, tables, f, k - 1, p);
    }
  }

  /** The earliest category that has a package decides where it goes: the
      field of that category gains it with that category's version. */
  lemma {:induction false} EarliestCategoryWins(dists: seq<string>, tables: seq<Table>, k: nat, j: nat, p: string)
    requires |dists| == |tables| && j < k <= |tables|
    requires p in tables[j] && forall i :: 0 <= i < j ==> p !in tables[i]
    ensures p in Gained(dists, tables, dists[j], k)
    ensures Gained(dists, tables, dists[j], k)[p] == tables[j][p]
  {
    if j == k - 1 {
      ClaimedBeforeMeans(tables, j, p);
      assert p in Fresh(tables, j);
    } else {
      EarliestCategoryWins(dists, tables, k - 1, j, p);
      ClaimedBeforeMeans(tables, k - 1, p);
    }
  }

  /** No package is written to two output fields. */
  lemma AtMostOneGroup(dists: seq<string>, tables: seq<Table>, k: nat, p: string, f: string, g: string)
    requires |dists| == |tables| && k <= |tables|
    requires p in Gained(dists, tables, f, k) && p in Gained(dists, tables, g, k)
    ensures f == g
  {
    GainedFromEarliest(dists, tables, f, k, p);
    GainedFromEarliest(dists, tables, g, k, p);
    var i :| 0 <= i < k && dists[i] == f && p in tables[i] && forall h :: 0 <= h < i ==> p !in tables[h];
    var j :| 0 <= j < k && dists[j] == g && p in tables[j] && forall h :: 0 <= h < j ==> p !in tables[h];
    assert i == j;
  }

  lemma {:induction false} GainedOnlyFromDists(dists: seq<string>, tables: seq<Table>, f: string, k: nat)
    requires |dists| == |tables| && k <= |tables|
    requires Gained(dists, tables, f, k) != map[]
    ensures exists j :: 0 <= j < k && dists[j] == f
  {
    if dists[k - 1] != f {
      GainedOnlyFromDists(dists, tables, f, k - 1);
    }
  }

  /** What field `f` of the draft looks like after the categories before
      `k`: present when the draft has it or it gained packages; if it gained
      any, the draft's entries overwritten by the gained ones, otherwise the
      draft's own value. */
  ghost predicate FieldAfter(draft: Manifest, dists: seq<string>, tables: seq<Table>, k: nat, f: string)
    requires |dists| == |tables| && k <= |tables|
  {
    var merged := Merged(draft, dists, tables, k);
    var gained := Gained(dists, tables, f, k);
    && (f in merged <==> f in draft || gained != map[])
    && (f in merged ==> merged[f] == if gained == map[] then draft[f] else Obj(Spread(Field(draft, f)) + AsValues(gained)))
    && Spread(Field(merged, f)) == Spread(Field(draft, f)) + AsValues(gained)
  }

  lemma FieldAfterGain(draft: Manifest, dists: seq<string>, tables: seq<Table>, k: nat, f: string)
    requires |dists| == |tables| && 0 < k <= |tables|
    requires f == dists[k - 1] && Fresh(tables, k - 1) != map[]
    requires FieldAfter(draft, dists, tables, k - 1, f)
    ensures FieldAfter(draft, dists, tables, k, f)
  {
    var prev := Merged(draft, dists, tables, k - 1);
    var before := Gained(dists, tables, f, k - 1);
    var after := Gained(dists, tables, f, k);
    var added := Fresh(tables, k - 1);
    var user := Spread(Field(draft, f));
    var spreadPrev := Spread(Field(prev, f));
    assert spreadPrev == user + AsValues(before);
    assert after == before + added;
    AsValuesUnion(before, added);
    UnionAssociative(user, AsValues(before), AsValues(added));
    assert spreadPrev + AsValues(added) == user + AsValues(after);
    assert after != map[] by {
      var p :| p in added;
      assert p in after;
    }
  }

  /** A category that adds nothing to field `f` leaves it and its gains as they were. */
  lemma NoGainStep(draft: Manifest, dists: seq<string>, tables: seq<Table>, k: nat, f: string)
    requires |dists| == |tables| && 0 < k <= |tables|
    requires f != dists[k - 1] || Fresh(tables, k - 1) == map[]
    ensures Gained(dists, tables, f, k) == Gained(dists, tables, f, k - 1)
    ensures f in Merged(draft, dists, tables, k) <==> f in Merged(draft, dists, tables, k - 1)
    ensures Field(Merged(draft, dists, tables, k), f) == Field(Merged(draft, dists, tables, k - 1), f)
  {
  }

  lemma FieldAfterNoGain(draft: Manifest, dists: seq<string>, tables: seq<Table>, k: nat, f: string)
    requires |dists| == |tables| && 0 < k <= |tables|
    requires f != dists[k - 1] || Fresh(tables, k - 1) == map[]
    requires FieldAfter(draft, dists, tables, k - 1, f)
    ensures FieldAfter(draft, dists, tables, k, f)
  {
    NoGainStep(draft, dists, tables, k, f);
  }

  /** Every field after the categories before `k` is as `FieldAfter` says. */
  lemma {:induction false} MergedLookup(draft: Manifest, dists: seq<string>, tables: seq<Table>, k: nat, f: string)
    requires |dists| == |tables| && k <= |tables|
    ensures FieldAfter(draft, dists, tables, k, f)
  {
    if k == 0 {
      assert AsValues(map[]) == map[];
      assert Spread(Field(draft, f)) + map[] == Spread(Field(draft, f));
    } else {
      MergedLookup(draft, dists, tables, k - 1, f);
      if f == dists[k - 1] && Fresh(tables, k - 1) != map[] {
        FieldAfterGain(draft, dists, tables, k, f);
      } else {
        FieldAfterNoGain(draft, dists, tables, k, f);
      }
    }
  }

  /** Entries of an output field written by the user survive the merge
      unless a resolved package of the same name overwrites them. */
  lemma UserEntriesKept(draft: Manifest, dists: seq<string>, tables: seq<Table>, k: nat, f: string, key: string)
    requires |dists| == |tables| && k <= |tables|
    ensures var out := Spread(Field(Merged(draft, dists, tables, k), f));
      var user := Spread(Field(draft, f));
      var gained := Gained(dists, tables, f, k);
      && (key in out <==> key in user || key in gained)
      && (key in gained ==> out[key] == Str(gained[key]))
      && (key in user && key !in gained ==> out[key] == user[key])
  {
    MergedLookup(draft, dists, tables, k, f);
  }

  /** The inner loop of the category merge: the packages of one table not yet
      in `allDeps`, and `allDeps` with the table's packages added. */
  method ClaimNew(table: Table, allDeps: set<string>) returns (pkgs: Table, claimed: set<string>)
    ensures pkgs == Unclaimed(table, allDeps)
    ensures claimed == allDeps + table.Keys
  {
    pkgs := map[];
    claimed := allDeps;
    var todo := table.Keys;
    while todo != {}
      invariant todo <= table.Keys
      invariant claimed == allDeps + (table.Keys - todo)
      invariant pkgs == map p | p in table && p !in todo && p !in allDeps :: table[p]
    {
      var pkg :| pkg in todo;
      if pkg !in claimed {
        pkgs := pkgs[pkg := table[pkg]];
        claimed := claimed + {pkg};
      }
      todo := todo - {pkg};
    }
  }

  /** The fold advanced by one category, in the terms the category loop uses. */
  lemma MergeStep(draft: Manifest, dists: seq<string>, tables: seq<Table>, k: nat)
    requires |dists| == |tables| && k < |tables|
    ensures ClaimedBefore(tables, k + 1) == ClaimedBefore(tables, k) + tables[k].Keys
    ensures Merged(draft, dists, tables, k + 1) ==
      AddGroup(Merged(draft, dists, tables, k), dists[k], Unclaimed(tables[k], ClaimedBefore(tables, k)))
  {
  }

  /** One pass of the category loop: collect the new packages of the
      category's table (`None` is `undefined` and adds nothing) and spread
      them over the output field. */
  method MergeCategory(current: Manifest, allDeps: set<string>, dist: string, dependencies: Option<Table>)
    returns (next: Manifest, claimed: set<string>)
    ensures claimed == allDeps + dependencies.GetOr(map[]).Keys
    ensures next == AddGroup(current, dist, Unclaimed(dependencies.GetOr(map[]), allDeps))
  {
    next, claimed := current, allDeps;
    if dependencies.Some? {
      var pkgs: Table;
      pkgs, claimed := ClaimNew(dependencies.value, allDeps);
      if |pkgs| > 0 {
        next := current[dist := Obj(Spread(Field(current, dist)) + AsValues(pkgs))];
      } else {
        assert pkgs == map[];
      }
    } else {
      assert Unclaimed(map[], allDeps) == map[];
    }
  }

  /** The category loop of `generateBundle` (src/index.ts lines 136-159):
      each category's table is resolved, the packages no earlier category
      claimed are collected, and when there are any they are spread over the
      draft's output field. */
  method MergeDependencies(draft: Manifest, org: Manifest, imports: set<string>, siblings: Table, keep: bool,
                           cats: seq<Category>)
    returns (packageJson: Manifest)
    ensures packageJson == Merged(draft, Dists(cats), ResolvedTables(org, imports, siblings, keep, cats), |cats|)
  {
    ghost var dists := Dists(cats);
    ghost var tables := ResolvedTables(org, imports, siblings, keep, cats);
    packageJson := draft;
    var allDeps: set<string> := {};
    for k := 0 to |cats|
      invariant packageJson == Merged(draft, dists, tables, k)
      invariant allDeps == ClaimedBefore(tables, k)
    {
      var dependencies: Option<Table>;
      ghost var scans: nat;
      dependencies, scans := CreateDependencies(DeclaredAt(org, cats[k].dev), imports, siblings, keep);
      assert dependencies.GetOr(map[]) == tables[k];
      MergeStep(draft, dists, tables, k);
      packageJson, allDeps := MergeCategory(packageJson, allDeps, cats[k].dist, dependencies);
    }
  }

  // ---------------------------------------------------------------------
  // Field inheritance

  /** Field `f` is taken from the development manifest: the draft's value is
      falsy (or missing) and the development manifest's value is truthy. */
  predicate ShouldInherit(draft: Manifest, org: Manifest, f: string) {
    !FieldIsTruthy(draft, f) && FieldIsTruthy(org, f)
  }

  /** The inherited fields among `props`, with their development values. */
  function InheritedFields(draft: Manifest, org: Manifest, props: seq<string>): (r: Manifest)
    ensures forall f :: f in r <==> f in props && ShouldInherit(draft, org, f)
    ensures forall f :: f in r ==> f in org && r[f] == org[f]
  {
    map f | f in org && f in props && ShouldInherit(draft, org, f) :: org[f]
  }

  /** The draft after inheritance: every listed field the draft lacks (or
      holds falsy) and the development manifest holds truthy is copied over. */
  function Inherited(draft: Manifest, org: Manifest, props: seq<string>): Manifest {
    draft + InheritedFields(draft, org, props)
  }

  /** Inheritance copies a field exactly when it is listed, falsy (or
      missing) in the draft and truthy in the development manifest; it
      removes nothing and a truthy draft value is never replaced. */
  lemma InheritedChanges(draft: Manifest, org: Manifest, props: seq<string>, f: string)
    ensures var r := Inherited(draft, org, props);
      && (f in r <==> f in draft || (f in props && ShouldInherit(draft, org, f)))
      && (f in r && (f !in draft || r[f] != draft[f]) ==> f in props && ShouldInherit(draft, org, f) && r[f] == org[f])
      && (FieldIsTruthy(draft, f) ==> r[f] == draft[f])
      && (f in props && ShouldInherit(draft, org, f) ==> f in r && r[f] == org[f])
  {
  }

  /** Inheriting a second time changes nothing. */
  lemma InheritedIdempotent(draft: Manifest, org: Manifest, props: seq<string>)
    ensures Inherited(Inherited(draft, org, props), org, props) == Inherited(draft, org, props)
  {
    var once := Inherited(draft, org, props);
    assert InheritedFields(once, org, props) == map[];
    assert once + map[] == once;
  }

  /** One pass of the inheritance loop: `packageJson[prop] = orgPackageJson[prop]`
      when the draft's value is falsy and the development value truthy. */
  function InheritOne(current: Manifest, org: Manifest, prop: string): Manifest {
    if ShouldInherit(current, org, prop) then current[prop := org[prop]] else current
  }

  lemma InheritedStep(draft: Manifest, org: Manifest, props: seq<string>, i: nat)
    requires i < |props|
    ensures Inherited(draft, org, props[..i + 1]) == InheritOne(Inherited(draft, org, props[..i]), org, props[i])
  {
    var before := Inherited(draft, org, props[..i]);
    var after := Inherited(draft, org, props[..i + 1]);
    var f := props[i];
    assert props[..i + 1] == props[..i] + [f];
    forall g ensures g in after <==> g in InheritOne(before, org, f) {
      if g != f {
        assert g in props[..i + 1] <==> g in props[..i];
      }
    }
    if f in props[..i] && ShouldInherit(draft, org, f) {
      assert before[f] == org[f];
    }
  }

  /** The inheritance loop of `generateBundle`. */
  method InheritFields(draft: Manifest, org: Manifest, props: seq<string>) returns (packageJson: Manifest)
    ensures packageJson == Inherited(draft, org, props)
  {
    packageJson := draft;
    assert InheritedFields(draft, org, props[..0]) == map[];
    assert draft + map[] == draft;
    for i := 0 to |props|
      invariant packageJson == Inherited(draft, org, props[..i])
    {
      var prop := props[i];
      InheritedStep(draft, org, props, i);
      if !(prop in packageJson && Truthy(packageJson[prop])) && prop in org && Truthy(org[prop]) {
        packageJson := packageJson[prop := org[prop]];
      }
    }
    assert props[..|props|] == props;
  }

  /** A `license` the draft lacks is inherited from the development manifest. */
  lemma InheritanceExample()
    ensures Inherited(map[], map["license" := Str("MIT")], InheritProps) == map["license" := Str("MIT")]
  {
    assert InheritProps[8] == "license";
    assert ShouldInherit(map[], map["license" := Str("MIT")], "license");
  }
}
