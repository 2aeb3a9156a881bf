/** Enumerating the call chains that lead from an externally callable function to a target. */
module CallPaths {
  import opened Collections

  type Fn = nat

  /** A contract lists the functions and modifiers it declares and, by index, the contracts
      it inherits from. */
  datatype Contract = Contract(declared: seq<Fn>, inheritance: seq<nat>)

  /** exposed: the visibility is public or external. calls: high level, library and internal. */
  datatype Info = Info(fullName: string, contract: nat, exposed: bool, calls: seq<Fn>)

  datatype Program = Program(contracts: seq<Contract>, info: map<Fn, Info>)

  ghost predicate ProgramOk(p: Program) {
    && (forall c, f :: 0 <= c < |p.contracts| && f in p.contracts[c].declared ==> f in p.info)
    && (forall c, i :: 0 <= c < |p.contracts| && i in p.contracts[c].inheritance ==> i < |p.contracts|)
    && (forall f :: f in p.info ==> p.info[f].contract < |p.contracts|)
  }

  /** The functions declared by the first n contracts. */
  function DeclaredBy(p: Program, n: nat): set<Fn>
    requires n <= |p.contracts|
  {
    if n == 0 then {} else DeclaredBy(p, n - 1) + Elements(p.contracts[n - 1].declared)
  }

  function Declared(p: Program): set<Fn> { DeclaredBy(p, |p.contracts|) }

  lemma {:induction false} DeclaredByGrows(p: Program, c: nat, n: nat)
    requires c <= n <= |p.contracts|
    ensures DeclaredBy(p, c) <= DeclaredBy(p, n)
  {
    if c < n { DeclaredByGrows(p, c, n - 1); }
  }

  lemma DeclaredIn(p: Program, c: nat, i: nat)
    requires c < |p.contracts| && i < |p.contracts[c].declared|
    ensures p.contracts[c].declared[i] in Declared(p)
  {
    assert p.contracts[c].declared[i] in Elements(p.contracts[c].declared);
    DeclaredByGrows(p, c + 1, |p.contracts|);
  }

  /** f and the functions of the same full name in the contracts its contract inherits from. */
  function Definitions(p: Program, f: Fn): set<Fn>
    requires ProgramOk(p) && f in p.info
  {
    {f} + set c, d | c in p.contracts[p.info[f].contract].inheritance && d in p.contracts[c].declared
                     && p.info[d].fullName == p.info[f].fullName :: d
  }

  /** d is t or what t overrides: a function of the same full name in a contract that t's contract
      inherits from. */
  ghost predicate IsDefinition(p: Program, d: Fn, t: Fn)
    requires ProgramOk(p) && t in p.info
  {
    d == t || exists c :: 0 <= c < |p.contracts| && c in p.contracts[p.info[t].contract].inheritance
                          && d in p.contracts[c].declared && p.info[d].fullName == p.info[t].fullName
  }

  lemma DefinitionsAre(p: Program, d: Fn, t: Fn)
    requires ProgramOk(p) && t in p.info
    ensures d in Definitions(p, t) <==> IsDefinition(p, d, t)
  {
  }

  /** Some contract declares f. */
  ghost predicate IsDeclared(p: Program, f: Fn) {
    exists c :: 0 <= c < |p.contracts| && f in p.contracts[c].declared
  }

  lemma {:induction false} DeclaredByAre(p: Program, f: Fn, n: nat)
    requires n <= |p.contracts|
    ensures f in DeclaredBy(p, n) <==> exists c :: 0 <= c < n && f in p.contracts[c].declared
  {
    if n > 0 { DeclaredByAre(p, f, n - 1); }
  }

  /** f calls t or something that t overrides. */
  ghost predicate Calls(p: Program, f: Fn, t: Fn)
    requires ProgramOk(p) && f in p.info && t in p.info
  {
    exists d :: d in p.info[f].calls && IsDefinition(p, d, t)
  }

  predicate Intersects(calls: seq<Fn>, definitions: set<Fn>) {
    exists d :: d in calls && d in definitions
  }

  lemma IntersectsIsCalls(p: Program, f: Fn, t: Fn)
    requires ProgramOk(p) && f in p.info && t in p.info
    ensures Intersects(p.info[f].calls, Definitions(p, t)) <==> Calls(p, f, t)
  {
    hide Definitions, IsDefinition;
    forall d ensures d in Definitions(p, t) <==> IsDefinition(p, d, t) { DefinitionsAre(p, d, t); }
  }

  ghost predicate Known(p: Program, path: seq<Fn>) { forall f :: f in path ==> f in p.info }

  /** path ends in base, and each function before base is declared, calls a definition of the
      next one and does not occur again. */
  ghost predicate Onto(p: Program, path: seq<Fn>, base: seq<Fn>)
    requires ProgramOk(p) && Known(p, base)
  {
    && |base| <= |path| && path[|path| - |base|..] == base && Known(p, path)
    && forall i :: 0 <= i < |path| - |base| ==>
         path[i] in Declared(p) && path[i] !in path[i + 1..] && (i + 1 < |path| ==> Calls(p, path[i], path[i + 1]))
  }

  ghost predicate Reaching(p: Program, path: seq<Fn>, base: seq<Fn>)
    requires ProgramOk(p) && Known(p, base)
  {
    Onto(p, path, base) && |path| > 1 && p.info[path[0]].exposed
  }

  /** A call chain to target: at least two functions, none repeated, the first one exposed,
      every one but the target declared, each calling some definition of the next. */
  ghost predicate ChainTo(p: Program, path: seq<Fn>, target: Fn)
    requires ProgramOk(p) && target in p.info
  {
    && |path| >= 2 && path[|path| - 1] == target && Known(p, path) && p.info[path[0]].exposed
    && (forall i, j :: 0 <= i < j < |path| ==> path[i] != path[j])
    && (forall i :: 0 <= i < |path| - 1 ==> IsDeclared(p, path[i]) && Calls(p, path[i], path[i + 1]))
  }

  /** A caller of a definition that the target overrides is found, too. */
  lemma OverriddenCallIsChain(p: Program, f: Fn, d: Fn, t: Fn, c: nat)
    requires ProgramOk(p) && f in p.info && t in p.info && f != t && c < |p.contracts|
    requires p.info[f].exposed && IsDeclared(p, f) && d in p.info[f].calls
    requires c in p.contracts[p.info[t].contract].inheritance && d in p.contracts[c].declared
    requires p.info[d].fullName == p.info[t].fullName
    ensures ChainTo(p, [f, t], t)
  {
    assert IsDefinition(p, d, t);
  }

  /** Callers are looked for among the functions that some contract declares. */
  lemma DeclaredAre(p: Program, f: Fn)
    ensures f in Declared(p) <==> IsDeclared(p, f)
  {
    DeclaredByAre(p, f, |p.contracts|);
  }

  /** For one target the recursive notion is that of a call chain. */
  lemma ChainIsReaching(p: Program, path: seq<Fn>, target: Fn)
    requires ProgramOk(p) && target in p.info
    ensures Reaching(p, path, [target]) <==> ChainTo(p, path, target)
  {
    hide Calls, Declared, IsDeclared;
    forall f ensures f in Declared(p) <==> IsDeclared(p, f) { DeclaredAre(p, f); }
    if Reaching(p, path, [target]) {
      assert path[|path| - 1] == path[|path| - 1..][0];
      forall i, j | 0 <= i < j < |path| ensures path[i] != path[j] { assert path[j] == path[i + 1..][j - i - 1]; }
    }
    if ChainTo(p, path, target) {
      assert path[|path| - 1..] == [target];
    }
  }

  /** The function just before base. */
  function Before(path: seq<Fn>, base: seq<Fn>): Fn
    requires |base| < |path|
  {
    path[|path| - |base| - 1]
  }

  /** Chains onto base that go on with f are the chains onto [f] + base. */
  lemma OneMore(p: Program, path: seq<Fn>, base: seq<Fn>, f: Fn)
    requires ProgramOk(p) && Known(p, base) && base != [] && f in p.info
    requires f in Declared(p) && f !in base && Calls(p, f, base[0])
    ensures Onto(p, path, [f] + base) <==> |base| < |path| && Before(path, base) == f && Onto(p, path, base)
  {
    hide Calls, Declared;
    var longer, n := [f] + base, |path| - |base|;
    if |base| < |path| {
      assert path[n - 1..] == [path[n - 1]] + path[n..];
      assert longer[1..] == base && longer[0] == f;
      if path[n - 1] == f && path[n..] == base {
        assert path[n] == base[0];
      }
      if path[n - 1..] == longer { assert path[n - 1..][1..] == path[n..]; }
    }
  }

  /** A longer chain onto base goes on with a function that the search does not skip. */
  lemma Continues(p: Program, path: seq<Fn>, base: seq<Fn>)
    requires ProgramOk(p) && Known(p, base) && base != [] && Onto(p, path, base) && |base| < |path|
    ensures var f := Before(path, base); f in Declared(p) && f in p.info && f !in base && Calls(p, f, base[0])
  {
    hide Calls, Declared;
    assert path[|path| - |base|] == base[0];
  }

  /** results are the chains onto base that go on with one of the functions in done. */
  ghost predicate Collected(p: Program, results: set<seq<Fn>>, base: seq<Fn>, done: set<Fn>)
    requires ProgramOk(p) && Known(p, base)
  {
    forall path :: path in results <==> Reaching(p, path, base) && |base| < |path| && Before(path, base) in done
  }

  lemma CollectedWith(p: Program, results: set<seq<Fn>>, more: set<seq<Fn>>, base: seq<Fn>, done: set<Fn>, f: Fn)
    requires ProgramOk(p) && Known(p, base) && base != [] && f in p.info && Collected(p, results, base, done)
    requires f in Declared(p) && f !in base && Calls(p, f, base[0])
    requires forall path :: path in more <==> Reaching(p, path, [f] + base)
    ensures Collected(p, results + more, base, done + {f})
  {
    hide Calls, Declared, Onto;
    forall path ensures path in more <==> Reaching(p, path, base) && |base| < |path| && Before(path, base) == f {
      OneMore(p, path, base, f);
    }
  }

  lemma CollectedWithout(p: Program, results: set<seq<Fn>>, base: seq<Fn>, done: set<Fn>, f: Fn)
    requires ProgramOk(p) && Known(p, base) && base != [] && f in p.info && Collected(p, results, base, done)
    requires f in base || !Calls(p, f, base[0])
    ensures Collected(p, results, base, done + {f})
  {
    hide Calls, Declared, Onto;
    forall path | Reaching(p, path, base) && |base| < |path| ensures Before(path, base) != f {
      Continues(p, path, base);
    }
  }

  lemma CollectedAll(p: Program, results: set<seq<Fn>>, base: seq<Fn>)
    requires ProgramOk(p) && Known(p, base) && base != [] && Collected(p, results, base, Declared(p))
    ensures forall path :: path in results <==> Reaching(p, path, base) && path != base
  {
    hide Calls, Declared;
    forall path ensures path in results <==> Reaching(p, path, base) && path != base {
      if Reaching(p, path, base) && |base| < |path| { Continues(p, path, base); }
      if Reaching(p, path, base) && |base| == |path| { assert path[0..] == path; }
    }
  }

  class PathFinder {
    const p: Program

    constructor (p: Program)
      ensures this.p == p
    {
      this.p := p;
    }

    /** The chains onto [target] + current; terminates on any call graph because the functions
        on the path are never entered again. */
    method FindFrom(target: Fn, current: seq<Fn>) returns (results: set<seq<Fn>>)
      requires ProgramOk(p) && Known(p, [target] + current)
      ensures forall path :: path in results <==> Reaching(p, path, [target] + current)
      decreases Declared(p) - Elements([target] + current)
    {
      hide Calls, Declared, Onto;
      var base := [target] + current;
      var definitions := Definitions(p, target);
      results := {};
      ghost var done: set<Fn> := {};
      for c := 0 to |p.contracts|
        invariant done == DeclaredBy(p, c) && Collected(p, results, base, done)
      {
        var fs := p.contracts[c].declared;
        for i := 0 to |fs|
          invariant done == DeclaredBy(p, c) + Elements(fs[..i]) && Collected(p, results, base, done)
        {
          var f := fs[i];
          DeclaredIn(p, c, i);
          IntersectsIsCalls(p, f, target);
          if f !in base && Intersects(p.info[f].calls, definitions) {
            assert Elements([f] + base) == Elements(base) + {f};
            var more := FindFrom(f, base);
            CollectedWith(p, results, more, base, done, f);
            results := results + more;
          } else {
            CollectedWithout(p, results, base, done, f);
          }
          assert fs[..i + 1] == fs[..i] + [f];
          done := done + {f};
        }
        assert fs[..|fs|] == fs;
      }
      AllDeclared(p, done);
      CollectedAll(p, results, base);
      ShortestChain(p, base);
      if p.info[target].exposed && |base| > 1 {
        results := results + {base};
      }
    }

    /** Exactly the call chains to one of the targets. */
    method FindTargetPaths(targets: seq<Fn>) returns (results: set<seq<Fn>>)
      requires ProgramOk(p) && Known(p, targets)
      ensures forall path :: path in results <==> exists i :: 0 <= i < |targets| && ChainTo(p, path, targets[i])
    {
      results := {};
      for i := 0 to |targets|
        invariant forall path :: path in results <==> exists j :: 0 <= j < i && ChainTo(p, path, targets[j])
      {
        assert Known(p, [targets[i]]);
        var more := FindFrom(targets[i], []);
        forall path ensures path in more <==> ChainTo(p, path, targets[i]) {
          assert [targets[i]] + [] == [targets[i]];
          ChainIsReaching(p, path, targets[i]);
        }
        results := results + more;
      }
    }
  }

  lemma AllDeclared(p: Program, done: set<Fn>)
    requires done == DeclaredBy(p, |p.contracts|)
    ensures done == Declared(p)
  {
  }

  lemma ShortestChain(p: Program, base: seq<Fn>)
    requires ProgramOk(p) && Known(p, base)
    ensures Onto(p, base, base)
  {
    assert base[0..] == base;
  }
}
