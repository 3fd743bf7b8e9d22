/** Specifier to package resolution: which declared package "owns" an
    imported module id (src/index.ts, `_getExternalDependencies`). */
module Specifiers {
  import opened Json

  /** The characters of the split pattern `[/\\]`. */
  predicate IsSeparator(c: char) {
    c == '/' || c == '\\'
  }

  predicate NoSeparator(t: string) {
    forall j :: 0 <= j < |t| ==> !IsSeparator(t[j])
  }

  /** `s.split(/[/\\]/)`: the pieces between separators, empty pieces kept;
      the empty string splits into one empty piece. */
  function Split(s: string): (tokens: seq<string>)
    ensures |tokens| >= 1
    ensures forall i :: 0 <= i < |tokens| ==> NoSeparator(tokens[i])
  {
    if s == [] then [""]
    else
      var rest := Split(s[1..]);
      if IsSeparator(s[0]) then [""] + rest
      else [[s[0]] + rest[0]] + rest[1..]
  }

  /** `tokens.join('/')`. */
  function Join(tokens: seq<string>): string {
    if tokens == [] then ""
    else if |tokens| == 1 then tokens[0]
    else tokens[0] + "/" + Join(tokens[1..])
  }

  /** The specifier with every `\` turned into `/`. */
  function Normalized(s: string): (n: string)
    ensures |n| == |s|
  {
    seq(|s|, i requires 0 <= i < |s| => if s[i] == '\\' then '/' else s[i])
  }

  lemma JoinFirst(c: char, tokens: seq<string>)
    requires |tokens| >= 1
    ensures Join([[c] + tokens[0]] + tokens[1..]) == [c] + Join(tokens)
  {
    if |tokens| > 1 {
      assert ([[c] + tokens[0]] + tokens[1..])[1..] == tokens[1..];
    }
  }

  /** Splitting and re-joining with `/` gives back the specifier with its
      separators normalised to `/`. */
  lemma {:induction false} JoinSplit(s: string)
    ensures Join(Split(s)) == Normalized(s)
  {
    if s != [] {
      var rest := Split(s[1..]);
      JoinSplit(s[1..]);
      assert Normalized(s) == Normalized(s[..1]) + Normalized(s[1..]);
      if IsSeparator(s[0]) {
        assert ([""] + rest)[1..] == rest;
      } else {
        JoinFirst(s[0], rest);
      }
    }
  }

  lemma {:induction false} SplitPrefix(t: string, s: string)
    requires NoSeparator(t)
    ensures Split(t + s) == [t + Split(s)[0]] + Split(s)[1..]
  {
    if t != [] {
      assert (t + s)[1..] == t[1..] + s;
      SplitPrefix(t[1..], s);
      assert [t[0]] + (t[1..] + Split(s)[0]) == t + Split(s)[0];
    } else {
      assert t + s == s && t + Split(s)[0] == Split(s)[0];
      assert Split(s) == [Split(s)[0]] + Split(s)[1..];
    }
  }

  /** Joining separator-free tokens and splitting again gives the tokens back. */
  lemma {:induction false} SplitJoin(tokens: seq<string>)
    requires |tokens| >= 1
    requires forall i :: 0 <= i < |tokens| ==> NoSeparator(tokens[i])
    ensures Split(Join(tokens)) == tokens
  {
    if |tokens| == 1 {
      SplitPrefix(tokens[0], "");
      assert tokens[0] + "" == tokens[0];
    } else {
      var rest := tokens[1..];
      SplitJoin(rest);
      var s := "/" + Join(rest);
      assert Join(tokens) == tokens[0] + s;
      SplitPrefix(tokens[0], s);
      assert s[1..] == Join(rest);
      assert Split(s) == [""] + rest;
      assert tokens[0] + "" == tokens[0];
      assert tokens == [tokens[0]] + rest;
    }
  }

  /** The `i`-token prefix of a split specifier, re-joined with `/`
      (`tokens.slice(0, i).join('/')`). */
  function Candidate(tokens: seq<string>, i: nat): string
    requires 1 <= i <= |tokens|
  {
    Join(tokens[..i])
  }

  /** Some token prefix of the specifier is a declared package. */
  ghost predicate HasDeclaredPrefix(specifier: string, declared: Table) {
    var tokens := Split(specifier);
    exists i :: 1 <= i <= |tokens| && Candidate(tokens, i) in declared
  }

  /** `pkg` is the longest token prefix of the specifier that is declared. */
  ghost predicate IsOwner(specifier: string, pkg: string, declared: Table) {
    var tokens := Split(specifier);
    pkg in declared &&
    exists i :: 1 <= i <= |tokens| && Candidate(tokens, i) == pkg && LongestFrom(tokens, i, declared)
  }

  /** No candidate longer than `i` tokens is declared. */
  ghost predicate LongestFrom(tokens: seq<string>, i: nat, declared: Table) {
    forall j :: i < j <= |tokens| ==> Candidate(tokens, j) !in declared
  }

  /** A specifier has at most one owner. */
  lemma OwnerUnique(specifier: string, p: string, q: string, declared: Table)
    requires IsOwner(specifier, p, declared) && IsOwner(specifier, q, declared)
    ensures p == q
  {
    var tokens := Split(specifier);
    var i :| 1 <= i <= |tokens| && Candidate(tokens, i) == p && LongestFrom(tokens, i, declared);
    var j :| 1 <= j <= |tokens| && Candidate(tokens, j) == q && LongestFrom(tokens, j, declared);
  }

  lemma {:induction false} LongestAbove(tokens: seq<string>, i: nat, declared: Table)
    requires 1 <= i <= |tokens| && Candidate(tokens, i) in declared
    ensures exists k :: i <= k <= |tokens| && Candidate(tokens, k) in declared && LongestFrom(tokens, k, declared)
    decreases |tokens| - i
  {
    if !LongestFrom(tokens, i, declared) {
      var j :| i < j <= |tokens| && Candidate(tokens, j) in declared;
      LongestAbove(tokens, j, declared);
    }
  }

  /** A specifier has an owner exactly when some token prefix of it is declared. */
  lemma OwnerExists(specifier: string, declared: Table)
    ensures HasDeclaredPrefix(specifier, declared) <==> exists pkg :: IsOwner(specifier, pkg, declared)
  {
    var tokens := Split(specifier);
    if HasDeclaredPrefix(specifier, declared) {
      var i :| 1 <= i <= |tokens| && Candidate(tokens, i) in declared;
      LongestAbove(tokens, i, declared);
      var k :| i <= k <= |tokens| && Candidate(tokens, k) in declared && LongestFrom(tokens, k, declared);
      assert IsOwner(specifier, Candidate(tokens, k), declared);
    }
  }

  /** The inner loop of `_getExternalDependencies`: try the token prefixes of
      one specifier from longest to shortest and stop at the first declared one. */
  method ResolvePackage(specifier: string, declared: Table) returns (owner: Option<string>)
    ensures owner.Some? ==> IsOwner(specifier, owner.value, declared)
    ensures owner.None? ==> !HasDeclaredPrefix(specifier, declared)
  {
    var tokens := Split(specifier);
    var i := |tokens|;
    owner := None;
    while 0 < i
      invariant 0 <= i <= |tokens|
      invariant LongestFrom(tokens, i, declared)
    {
      var pkg := Join(tokens[..i]);
      if pkg in declared {
        owner := Some(pkg);
        break;
      }
      i := i - 1;
    }
  }

  /** The packages the imports resolve to, each with its declared version. */
  ghost function ExternalDependencies(imports: set<string>, declared: Table): Table {
    map pkg | pkg in declared && exists item :: item in imports && IsOwner(item, pkg, declared) :: declared[pkg]
  }

  /** `_getExternalDependencies`: record, for every import, the longest
      declared token prefix together with its declared version. */
  method GetExternalDependencies(imports: set<string>, declared: Table) returns (deps: Table)
    ensures forall pkg :: pkg in deps <==> exists item :: item in imports && IsOwner(item, pkg, declared)
    ensures forall pkg :: pkg in deps ==> pkg in declared && deps[pkg] == declared[pkg]
    ensures deps == ExternalDependencies(imports, declared)
  {
    deps := map[];
    var todo := imports;
    ghost var done: set<string> := {};
    while todo != {}
      invariant todo == imports - done && done <= imports
      invariant forall pkg :: pkg in deps <==> exists item :: item in done && IsOwner(item, pkg, declared)
      invariant forall pkg :: pkg in deps ==> pkg in declared && deps[pkg] == declared[pkg]
    {
      var item :| item in todo;
      var owner := ResolvePackage(item, declared);
      if owner.Some? {
        deps := deps[owner.value := declared[owner.value]];
        forall pkg | IsOwner(item, pkg, declared) ensures pkg == owner.value {
          OwnerUnique(item, pkg, owner.value, declared);
        }
      } else {
        OwnerExists(item, declared);
      }
      todo := todo - {item};
      done := done + {item};
    }
  }

  /** A deep import `scope/name/sub` of a declared scoped package
      `scope/name` resolves to that package, unless the whole specifier is
      itself declared. */
  lemma ScopedSubpathOwner(scope: string, name: string, sub: string, declared: Table)
    requires NoSeparator(scope) && NoSeparator(name) && NoSeparator(sub)
    requires scope + "/" + name in declared && scope + "/" + name + "/" + sub !in declared
    ensures IsOwner(scope + "/" + name + "/" + sub, scope + "/" + name, declared)
  {
    var tokens := [scope, name, sub];
    assert tokens[1..] == [name, sub] && [name, sub][1..] == [sub];
    assert Join([name, sub]) == name + "/" + sub;
    assert Join(tokens) == scope + "/" + (name + "/" + sub);
    assert scope + "/" + (name + "/" + sub) == scope + "/" + name + "/" + sub;
    SplitJoin(tokens);
    assert tokens[..2] == [scope, name] && tokens[..2][1..] == [name];
    assert Join(tokens[..2]) == scope + "/" + name;
    assert tokens[..3] == tokens;
    assert Candidate(tokens, 2) == scope + "/" + name && LongestFrom(tokens, 2, declared);
  }

  /** A separator-free specifier that is declared owns itself. */
  lemma BareOwner(name: string, declared: Table)
    requires NoSeparator(name) && name in declared
    ensures IsOwner(name, name, declared)
  {
    var tokens := [name];
    SplitJoin(tokens);
    assert tokens[..1] == tokens;
    assert Candidate(tokens, 1) == name && LongestFrom(tokens, 1, declared);
  }

  /** Ownership depends on the table: the same import `a/b` is owned by `a/b`
      in a table declaring it, and by `a` in a table declaring only `a`. */
  lemma OwnerDependsOnTable(a: string, b: string, declared: Table, other: Table)
    requires NoSeparator(a) && NoSeparator(b)
    requires a + "/" + b in declared && a in other && a + "/" + b !in other
    ensures IsOwner(a + "/" + b, a + "/" + b, declared)
    ensures IsOwner(a + "/" + b, a, other)
  {
    var tokens := [a, b];
    assert tokens[1..] == [b];
    assert Join(tokens) == a + "/" + b;
    SplitJoin(tokens);
    assert tokens[..2] == tokens && tokens[..1] == [a];
    assert Candidate(tokens, 2) == a + "/" + b && LongestFrom(tokens, 2, declared);
    assert Candidate(tokens, 1) == a && LongestFrom(tokens, 1, other);
  }
}
