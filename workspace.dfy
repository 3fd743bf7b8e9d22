/** Workspace placeholder substitution and the per-category dependency
    table (src/index.ts, `WORKSPACE_DEPS` and `_createDependencies`). */
module Workspace {
  import opened Json
  import opened Specifiers

  /** The characters a regular-expression `.` does not match. */
  predicate IsLineTerminator(c: char) {
    c == '\n' || c == '\r' || c == '\U{2028}' || c == '\U{2029}'
  }

  predicate NoLineTerminator(s: string) {
    forall i :: 0 <= i < |s| ==> !IsLineTerminator(s[i])
  }

  /** `v` matches `prefix.+` from start to end. */
  predicate PrefixThenAnyChars(v: string, prefix: string) {
    |prefix| < |v| && v[..|prefix|] == prefix && NoLineTerminator(v[|prefix|..])
  }

  /** `WORKSPACE_DEPS.test(v)`, the pattern `^(?:\*|workspace:.+|portal:.+)$`. */
  predicate IsWorkspaceVersion(v: string) {
    v == "*" || PrefixThenAnyChars(v, "workspace:") || PrefixThenAnyChars(v, "portal:")
  }

  /** A version is a placeholder exactly when it is `*`, or `workspace:` or
      `portal:` followed by at least one character that is not a line
      terminator. */
  lemma WorkspaceVersionShape(v: string)
    ensures IsWorkspaceVersion(v) <==>
      v == "*" ||
      exists rest :: rest != "" && NoLineTerminator(rest) && (v == "workspace:" + rest || v == "portal:" + rest)
  {
    if PrefixThenAnyChars(v, "workspace:") {
      assert v == "workspace:" + v[10..];
    } else if PrefixThenAnyChars(v, "portal:") {
      assert v == "portal:" + v[7..];
    }
    if exists rest :: rest != "" && NoLineTerminator(rest) && (v == "workspace:" + rest || v == "portal:" + rest) {
      var rest :| rest != "" && NoLineTerminator(rest) && (v == "workspace:" + rest || v == "portal:" + rest);
      if v == "workspace:" + rest {
        assert v[..10] == "workspace:" && v[10..] == rest;
      } else {
        assert v[..7] == "portal:" && v[7..] == rest;
      }
    }
  }

  /** Versions that are and are not placeholders. */
  lemma WorkspaceVersionExamples()
    ensures IsWorkspaceVersion("*") && IsWorkspaceVersion("workspace:*")
    ensures IsWorkspaceVersion("workspace:^1.2.0") && IsWorkspaceVersion("portal:../lib")
    ensures !IsWorkspaceVersion("workspace:") && !IsWorkspaceVersion("portal:")
    ensures !IsWorkspaceVersion("**") && !IsWorkspaceVersion("^1.0.0") && !IsWorkspaceVersion("")
    ensures !IsWorkspaceVersion("workspace:1\n")
  {
    assert "workspace:"[0] != "portal:"[0] && "workspace:"[0] != "*"[0];
    assert "portal:"[0] != "workspace:"[0] && "portal:"[0] != "*"[0];
    var v := "workspace:1\n";
    assert v[0] != "portal:"[0] && IsLineTerminator(v[10..][1]);
  }

  /** `versions[pkg]` is truthy: the sibling index holds a non-empty version. */
  predicate HasSiblingVersion(siblings: Table, pkg: string) {
    pkg in siblings && siblings[pkg] != ""
  }

  /** The table after the placeholder step: each placeholder with a sibling
      version takes that version, unless `keep` (keepWorkspaceDeps) is set. */
  function Substituted(deps: Table, siblings: Table, keep: bool): (r: Table)
    ensures r.Keys == deps.Keys
    ensures keep ==> r == deps
    ensures forall pkg :: pkg in deps && !IsWorkspaceVersion(deps[pkg]) ==> r[pkg] == deps[pkg]
    ensures forall pkg :: pkg in deps && !HasSiblingVersion(siblings, pkg) ==> r[pkg] == deps[pkg]
    ensures forall pkg :: pkg in deps && !keep && IsWorkspaceVersion(deps[pkg]) && HasSiblingVersion(siblings, pkg) ==>
      r[pkg] == siblings[pkg]
  {
    if keep then deps
    else (map pkg | pkg in deps ::
      if IsWorkspaceVersion(deps[pkg]) && HasSiblingVersion(siblings, pkg) then siblings[pkg] else deps[pkg])
  }

  /** Substituting a second time changes nothing. */
  lemma SubstitutedIdempotent(deps: Table, siblings: Table, keep: bool)
    ensures Substituted(Substituted(deps, siblings, keep), siblings, keep) == Substituted(deps, siblings, keep)
  {
    var once := Substituted(deps, siblings, keep);
    var twice := Substituted(once, siblings, keep);
    forall pkg | pkg in once ensures twice[pkg] == once[pkg] {
      if !keep && IsWorkspaceVersion(once[pkg]) && HasSiblingVersion(siblings, pkg) {
        if once[pkg] == deps[pkg] {
          assert once[pkg] == siblings[pkg];
        }
      }
    }
  }

  /** The resolved packages are empty exactly when no import has a declared
      token prefix. */
  lemma ExternalDependenciesEmpty(imports: set<string>, declared: Table)
    ensures ExternalDependencies(imports, declared) == map[] <==>
      forall item :: item in imports ==> !HasDeclaredPrefix(item, declared)
  {
    var deps := ExternalDependencies(imports, declared);
    if item :| item in imports && HasDeclaredPrefix(item, declared) {
      OwnerExists(item, declared);
      var pkg :| IsOwner(item, pkg, declared);
      assert pkg in deps;
    }
    if deps != map[] {
      var pkg :| pkg in deps;
      var item :| item in imports && IsOwner(item, pkg, declared);
      OwnerExists(item, declared);
    }
  }

  /** What `_createDependencies` returns for one category: `None` stands for
      `undefined`, which is returned when the table would be empty. */
  ghost function CreatedDependencies(declared: Option<Table>, imports: set<string>, siblings: Table, keep: bool): (r: Option<Table>)
    ensures r.None? <==> declared.None? || forall item :: item in imports ==> !HasDeclaredPrefix(item, declared.value)
    ensures r.Some? ==> declared.Some? && r.value != map[] && r.value.Keys <= declared.value.Keys
    ensures r.Some? ==> forall pkg :: pkg in r.value <==> exists item :: item in imports && IsOwner(item, pkg, declared.value)
  {
    var found := if declared.Some? then ExternalDependencies(imports, declared.value) else map[];
    var t := Substituted(found, siblings, keep);
    if declared.Some? then ExternalDependenciesEmpty(imports, declared.value); if t == map[] then None else Some(t)
    else None
  }

  /** The loop of `_createDependencies` over the resolved table (src/index.ts
      lines 225-236): each placeholder version is looked up in the sibling
      index, which is built on first need and at most once (`scans` counts the
      builds), and replaced when the index holds a truthy version. */
  method ReplaceWorkspaceVersions(dependencies: Table, siblings: Table) returns (r: Table, ghost scans: nat)
    ensures r == Substituted(dependencies, siblings, false)
    ensures scans <= 1
    ensures scans == 1 <==> exists pkg :: pkg in dependencies && IsWorkspaceVersion(dependencies[pkg])
  {
    r := dependencies;
    scans := 0;
    var versions: Option<Table> := None;
    var todo := r.Keys;
    while todo != {}
      invariant todo <= dependencies.Keys == r.Keys
      invariant forall pkg :: pkg in todo ==> r[pkg] == dependencies[pkg]
      invariant forall pkg :: pkg in dependencies && pkg !in todo ==>
        r[pkg] == Substituted(dependencies, siblings, false)[pkg]
      invariant versions.Some? ==> versions.value == siblings
      invariant scans == if versions.Some? then 1 else 0
      invariant versions.Some? <==> exists pkg :: pkg in dependencies && pkg !in todo && IsWorkspaceVersion(dependencies[pkg])
    {
      var pkg :| pkg in todo;
      if IsWorkspaceVersion(r[pkg]) {
        if versions.None? {
          // `_getPckageVersions(packagesDir)`: the scan yields `siblings`
          versions := Some(siblings);
          scans := scans + 1;
        }
        if pkg in versions.value && versions.value[pkg] != "" {
          r := r[pkg := versions.value[pkg]];
        }
      }
      todo := todo - {pkg};
    }
  }

  /** `_createDependencies`: resolve the imports against one declared table
      (an absent table resolves nothing), replace placeholder versions unless
      `keep` is set, and return `None` (`undefined`) for an empty result. */
  method CreateDependencies(declared: Option<Table>, imports: set<string>, siblings: Table, keep: bool)
    returns (r: Option<Table>, ghost scans: nat)
    ensures r == CreatedDependencies(declared, imports, siblings, keep)
    ensures scans <= 1
    ensures scans == 1 <==>
      !keep && declared.Some? &&
      exists pkg :: pkg in ExternalDependencies(imports, declared.value) && IsWorkspaceVersion(declared.value[pkg])
  {
    var dependencies: Table := map[];
    if declared.Some? {
      dependencies := GetExternalDependencies(imports, declared.value);
    }
    scans := 0;
    if !keep {
      dependencies, scans := ReplaceWorkspaceVersions(dependencies, siblings);
    }
    r := if |dependencies| > 0 then Some(dependencies) else None;
  }

  /** A `workspace:*` entry takes the sibling's version, unless `keep` is set. */
  lemma SubstitutionExample()
    ensures Substituted(map["my-sibling" := "workspace:*"], map["my-sibling" := "3.2.1"], false) == map["my-sibling" := "3.2.1"]
    ensures Substituted(map["my-sibling" := "workspace:*"], map["my-sibling" := "3.2.1"], true) == map["my-sibling" := "workspace:*"]
    ensures Substituted(map["my-sibling" := "workspace:*"], map[], false) == map["my-sibling" := "workspace:*"]
  {
    WorkspaceVersionExamples();
  }
}
