/** What splitting conditional expressions does to the nodes of a whole graph. */
module TernaryExactness {
  import opened Collections
  import opened ExpressionSyntax
  import opened TernaryCfg
  import opened TernaryKept
  import opened TernaryPaths
  import opened TernaryRuns
  import opened TernarySpec
  import opened TernaryTerms
  import opened TernaryTrees

  // ----- what lies behind a node -----

  function ReplacedAll(s: set<nat>, n: nat, x: nat): set<nat> {
    set y | y in s :: Replaced(y, n, x)
  }

  ghost function CurrentAll(g: Cfg, next: nat, s: set<nat>): set<nat>
    requires CfgOk(g, next)
  {
    set y | y in s :: Current(g, next, y)
  }

  lemma ElementsSnoc(s: seq<nat>, x: nat)
    ensures Elements(s + [x]) == Elements(s) + {x}
  {
  }

  lemma {:induction false} WithoutElements(s: seq<nat>, n: nat)
    ensures Elements(Without(s, n)) == Elements(s) - {n}
    ensures Occurrences(s, n) > 0 <==> n in s
  {
    if s != [] {
      var init, last := s[..|s| - 1], s[|s| - 1];
      assert s == init + [last];
      WithoutElements(init, n);
      ElementsSnoc(init, last);
      if last != n { ElementsSnoc(Without(init, n), last); } else { assert Without(init, n) + [] == Without(init, n); }
    }
  }

  lemma RedirectedElements(s: seq<nat>, n: nat, x: nat)
    ensures Elements(Redirected(s, n, x)) == ReplacedAll(Elements(s), n, x)
  {
    WithoutElements(s, n);
    var k := Occurrences(s, n);
    assert Elements(Repeated(x, k)) == if k > 0 then {x} else {} by {
      if k > 0 { assert Repeated(x, k)[0] == x; }
    }
    forall y ensures y in Elements(Redirected(s, n, x))
                 <==> y in Elements(Without(s, n)) || y in Elements(Repeated(x, k)) {
    }
    hide Without, Occurrences, Repeated;
    forall y ensures y in Elements(Redirected(s, n, x)) <==> y in ReplacedAll(Elements(s), n, x) {
      if y in ReplacedAll(Elements(s), n, x) {
        var z :| z in Elements(s) && y == Replaced(z, n, x);
      }
      if y in Elements(s) - {n} { assert Replaced(y, n, x) == y; }
      if y == x && n in s { assert Replaced(n, n, x) == x; }
    }
  }

  /** The node whose sons follow a shape. */
  function Exit(sh: Shape): nat {
    if sh.Stmt? then sh.id else sh.end
  }

  ghost predicate Behind(g: Cfg, sh: Shape, sons: set<nat>) {
    Exit(sh) in g && Elements(g[Exit(sh)].sons) == sons
  }

  lemma BehindRecut(g: Cfg, next: nat, n: nat, sh: Shape, ret: bool, sons: set<nat>)
    requires Splits(g, next, n) && HoldsRoot(g, sh, ret) && Behind(g, sh, sons)
    ensures Behind(CutAt(g, next, n), Recut(sh, next, n), ReplacedAll(sons, n, next))
  {
    CutParts(g, next, n);
    RedirectedElements(g[Exit(sh)].sons, n, next);
    hide Redirected, SplitOf, CfgOk, Elements, ReplacedAll, HoldsTest, Holds, Avoids, AvoidsTest, RecutTest;
  }

  // ----- nodes that are no part of a shape -----

  lemma {:induction false} AvoidsCurrent(g: Cfg, next: nat, n: nat, sh: Shape, ret: bool, z: nat, y: nat)
    requires Splits(g, next, n) && Holds(g, sh, ret, z) && Avoids(sh, y) && y < next
    ensures Avoids(Recut(sh, next, n), Replaced(y, n, next))
    decreases sh
  {
    match sh
    case Stmt(_, _) =>
    case Fork(test, a, b, end) =>
      AvoidsTestCurrent(g, next, n, test, Entry(a), Entry(b), y);
      AvoidsCurrent(g, next, n, a, ret, end, y);
      AvoidsCurrent(g, next, n, b, ret, end, y);
  }

  lemma {:induction false} AvoidsTestCurrent(g: Cfg, next: nat, n: nat, ts: TestShape, a: nat, b: nat, y: nat)
    requires Splits(g, next, n) && HoldsTest(g, ts, a, b) && AvoidsTest(ts, y) && y < next
    ensures AvoidsTest(RecutTest(ts, a, b, next, n), Replaced(y, n, next))
    decreases ts
  {
    match ts
    case Single(_, _, _) =>
    case Broken(test, s, t, end) =>
      AvoidsTestCurrent(g, next, n, test, Entry(s), Entry(t), y);
      AvoidsCurrent(g, next, n, s, false, end, y);
      AvoidsCurrent(g, next, n, t, false, end, y);
  }

  lemma RootAvoidsCurrent(g: Cfg, next: nat, n: nat, sh: Shape, ret: bool, y: nat)
    requires Splits(g, next, n) && HoldsRoot(g, sh, ret) && Avoids(sh, y) && y < next
    ensures Avoids(Recut(sh, next, n), Replaced(y, n, next))
  {
    if sh.Stmt? { return; }
    EndIfStays(g, next, n, sh.end);
    AvoidsTestCurrent(g, next, n, sh.test, Entry(sh.onTrue), Entry(sh.onFalse), y);
    AvoidsCurrent(g, next, n, sh.onTrue, ret, sh.end, y);
    AvoidsCurrent(g, next, n, sh.onFalse, ret, sh.end, y);
  }

  /** The sides of the innermost split of a shape do not lead back to its entry. */
  predicate Headed(sh: Shape) {
    sh.Fork? ==> HeadedBetween(sh.test, sh.onTrue, sh.onFalse)
  }

  predicate HeadedBetween(ts: TestShape, s: Shape, t: Shape) {
    match ts
    case Single(id, _, _) => Avoids(s, id) && Avoids(t, id)
    case Broken(test, x, y, _) => HeadedBetween(test, x, y)
  }

  lemma {:induction false} HeadedBetweenRecut(g: Cfg, next: nat, n: nat, ts: TestShape, s: Shape, t: Shape,
                                              ret: bool, end: nat)
    requires Splits(g, next, n) && HeadedBetween(ts, s, t) && HoldsTest(g, ts, Entry(s), Entry(t))
    requires Holds(g, s, ret, end) && Holds(g, t, ret, end)
    ensures HeadedBetween(RecutTest(ts, Entry(s), Entry(t), next, n), Recut(s, next, n), Recut(t, next, n))
    decreases ts
  {
    match ts
    case Single(id, c, swapped) =>
      if id == n {
        SingleForm(g, next, n, c, swapped, Entry(s), Entry(t));
      } else {
        SingleStaysHeaded(g, next, n, id, s, t, ret, end);
      }
    case Broken(test, x, y, z) => HeadedBetweenRecut(g, next, n, test, x, y, false, z);
  }

  lemma SingleStaysHeaded(g: Cfg, next: nat, n: nat, id: nat, s: Shape, t: Shape, ret: bool, end: nat)
    requires Splits(g, next, n) && id in g && id != n && Avoids(s, id) && Avoids(t, id)
    requires Holds(g, s, ret, end) && Holds(g, t, ret, end)
    ensures Avoids(Recut(s, next, n), id) && Avoids(Recut(t, next, n), id)
  {
    assert id < next;
    AvoidsCurrent(g, next, n, s, ret, end, id);
    AvoidsCurrent(g, next, n, t, ret, end, id);
  }

  lemma HeadedRecut(g: Cfg, next: nat, n: nat, sh: Shape, ret: bool)
    requires Splits(g, next, n) && HoldsRoot(g, sh, ret) && Headed(sh)
    ensures Headed(Recut(sh, next, n))
  {
    if sh.Fork? { HeadedBetweenRecut(g, next, n, sh.test, sh.onTrue, sh.onFalse, ret, sh.end); }
  }

  // ----- from the first split to the last -----

  /** What is known about a node's shape, the nodes behind it and some nodes elsewhere. */
  ghost predicate Placed(g: Cfg, next: nat, sh: Shape, ret: bool, e: Expr, sons: set<nat>, others: set<nat>) {
    && Shaped(g, sh, ret, e) && Headed(sh) && Behind(g, sh, sons)
    && forall y :: y in others ==> y < next && Avoids(sh, y)
  }

  lemma PlacedStep(g: Cfg, next: nat, n: nat, sh: Shape, ret: bool, e: Expr, sons: set<nat>, others: set<nat>)
    requires Splits(g, next, n) && Placed(g, next, sh, ret, e, sons, others) && First(g, n)
    ensures Placed(CutAt(g, next, n), next + 4, Recut(sh, next, n), ret, e,
                   ReplacedAll(sons, n, next), ReplacedAll(others, n, next))
    ensures Entry(Recut(sh, next, n)) == Replaced(Entry(sh), n, next)
  {
    hide CfgOk, Behind, Avoids, CutAt, Recut, HoldsRoot, Headed;
    HeadedRecut(g, next, n, sh, ret);
    ShapedStep(g, next, n, sh, ret, e);
    BehindRecut(g, next, n, sh, ret, sons);
    forall z | z in ReplacedAll(others, n, next) ensures z < next + 4 && Avoids(Recut(sh, next, n), z) {
      var y :| y in others && z == Replaced(y, n, next);
      RootAvoidsCurrent(g, next, n, sh, ret, y);
    }
  }

  lemma CurrentAllStep(g: Cfg, next: nat, s: set<nat>)
    requires CfgOk(g, next)
    ensures var n := FirstConditional(g, next, 0);
            && (n < next ==>
                  && CfgOk(CutAt(g, next, n), next + 4)
                  && CurrentAll(g, next, s) == CurrentAll(CutAt(g, next, n), next + 4, ReplacedAll(s, n, next)))
            && (n == next ==> CurrentAll(g, next, s) == s)
  {
    hide CfgOk, FirstConditional, CutAt, Total, Current;
    var n := FirstConditional(g, next, 0);
    CurrentStep(g, next, 0);
    forall y: nat
      ensures n < next ==> Current(g, next, y) == Current(CutAt(g, next, n), next + 4, Replaced(y, n, next))
      ensures n == next ==> Current(g, next, y) == y
    {
      CurrentStep(g, next, y);
    }
    if n < next {
      var h, all := CutAt(g, next, n), ReplacedAll(s, n, next);
      forall x | x in CurrentAll(g, next, s) ensures x in CurrentAll(h, next + 4, all) {
        var y :| y in s && x == Current(g, next, y);
        assert Replaced(y, n, next) in all;
      }
      forall x | x in CurrentAll(h, next + 4, all) ensures x in CurrentAll(g, next, s) {
        var z :| z in all && x == Current(h, next + 4, z);
        var y :| y in s && z == Replaced(y, n, next);
      }
    }
  }

  lemma {:induction false} FinalShape(g: Cfg, next: nat, sh: Shape, ret: bool, e: Expr,
                                      sons: set<nat>, others: set<nat>)
    returns (fin: Shape)
    requires CfgOk(g, next) && Placed(g, next, sh, ret, e, sons, others)
    ensures var h := Filtered(g, next);
            Placed(h.cfg, h.next, fin, ret, e, CurrentAll(g, next, sons), CurrentAll(g, next, others))
    ensures Entry(fin) == Current(g, next, Entry(sh))
    decreases Total(g, next)
  {
    hide *;
    var n := FirstConditional(g, next, 0);
    FilteredStep(g, next);
    CurrentStep(g, next, Entry(sh));
    CurrentAllStep(g, next, sons);
    CurrentAllStep(g, next, others);
    if n < next {
      FirstIs(g, next);
      CutShrinks(g, next, n);
      PlacedStep(g, next, n, sh, ret, e, sons, others);
      fin := FinalShape(CutAt(g, next, n), next + 4, Recut(sh, next, n), ret, e,
                        ReplacedAll(sons, n, next), ReplacedAll(others, n, next));
    } else {
      fin := sh;
      FilteredIs(g, next);
    }
  }

  /** A node with a conditional starts as a statement and ends as a shape without one. */
  lemma SplitShape(g: Cfg, next: nat, r: nat, e: Expr, others: set<nat>) returns (fin: Shape)
    requires CfgOk(g, next) && Conditional(g, r) && g[r].expr == Some(e)
    requires forall y :: y in others ==> y < next && y != r
    ensures var h := Filtered(g, next);
            Placed(h.cfg, h.next, fin, g[r].kind == RETURN, e,
                   CurrentAll(g, next, Elements(g[r].sons)), CurrentAll(g, next, others))
    ensures fin.Fork? && Complete(fin) && Entry(fin) == Current(g, next, r)
  {
    var ret, h := g[r].kind == RETURN, Filtered(g, next);
    fin := FinalShape(g, next, Stmt(r, e), ret, e, Elements(g[r].sons), others);
    RootIsComplete(h.cfg, fin, ret);
  }

  lemma RootIsComplete(g: Cfg, sh: Shape, ret: bool)
    requires HoldsRoot(g, sh, ret) && forall n :: !Conditional(g, n)
    ensures Complete(sh)
  {
    if sh.Stmt? {
      assert !Conditional(g, sh.id);
    } else {
      HeldTestIsComplete(g, sh.test, Entry(sh.onTrue), Entry(sh.onFalse));
      HeldIsComplete(g, sh.onTrue, ret, sh.end);
      HeldIsComplete(g, sh.onFalse, ret, sh.end);
    }
  }

  // ----- statements -----

  /** From what stands for r up to end, the graph has exactly the executions of e. */
  ghost predicate StatementKept(g: Cfg, m: nat, end: nat, e: Expr)
    requires Splittable(e)
  {
    forall ev :: Executes(g, m, end, ev) <==> Meaning(e, ev)
  }

  /** A statement with a conditional ends up before an ENDIF that goes on to the statement's
      sons, and keeps its executions exactly if the code keeps those of its expression. */
  lemma StatementKeptIff(g: Cfg, next: nat, r: nat, e: Expr) returns (end: nat)
    requires CfgOk(g, next) && Conditional(g, r) && g[r].expr == Some(e) && g[r].kind != IF && g[r].kind != IFLOOP
    ensures var h := Filtered(g, next).cfg;
            && end in h && h[end].kind == ENDIF && h[end].expr.None?
            && Elements(h[end].sons) == CurrentAll(g, next, Elements(g[r].sons))
            && (StatementKept(h, Current(g, next, r), end, e) <==> Keeps(e))
  {
    var h := Filtered(g, next).cfg;
    var fin := SplitShape(g, next, r, e, {});
    end := fin.end;
    ShapeExact(fin, e);
    hide Emits, Meaning, Executes, Keeps;
    forall ev ensures Executes(h, Current(g, next, r), end, ev) <==> Emits(fin, ev) {
      RootExecutes(h, fin, g[r].kind == RETURN, ev);
    }
  }

  // ----- what the reference means -----

  /** The conditions come out as the semantics says. */
  ghost predicate Truthful<V>(sem: Semantics<V>, ev: seq<Event>) {
    forall i :: 0 <= i < |ev| && ev[i].Decide? ==> ev[i].outcome == sem.truth(Eval(sem, ev[i].cond))
  }

  lemma TruthfulApart<V>(sem: Semantics<V>, p: seq<Event>, q: seq<Event>)
    ensures Truthful(sem, p + q) <==> Truthful(sem, p) && Truthful(sem, q)
  {
    var ev := p + q;
    assert forall i :: 0 <= i < |p| ==> ev[i] == p[i];
    assert forall i :: 0 <= i < |q| ==> ev[|p| + i] == q[i];
  }

  lemma {:induction false} DecidesTruly<V>(sem: Semantics<V>, t: Tree, ev: seq<Event>, b: bool)
    requires Decides(t, ev, b) && Truthful(sem, ev)
    ensures b == sem.truth(EvalTree(sem, t))
    decreases t
  {
    match t
    case Done(e) => assert ev[0].Decide?;
    case Choose(c, x, y) =>
      var p, q, d :| ev == p + q && Decides(c, p, d) && Decides(if d then x else y, q, b);
      TruthfulApart(sem, p, q);
      DecidesTruly(sem, c, p, d);
      DecidesTruly(sem, if d then x else y, q, b);
  }

  /** The statement comes last and has this value. */
  ghost predicate EndsIn<V>(sem: Semantics<V>, ev: seq<Event>, v: V) {
    ev != [] && ev[|ev| - 1].Do? && Eval(sem, ev[|ev| - 1].e) == v
  }

  lemma {:induction false} RunsToValue<V>(sem: Semantics<V>, t: Tree, ev: seq<Event>)
    requires Runs(t, ev) && Truthful(sem, ev)
    ensures EndsIn(sem, ev, EvalTree(sem, t))
    decreases t
  {
    match t
    case Done(e) => assert ev[0].Do?;
    case Choose(c, x, y) =>
      var p, q, b :| ev == p + q && Decides(c, p, b) && Runs(if b then x else y, q);
      TruthfulApart(sem, p, q);
      DecidesTruly(sem, c, p, b);
      RunsToValue(sem, if b then x else y, q);
      assert ev[|ev| - 1] == q[|q| - 1];
  }

  lemma {:induction false} SomeDecision<V>(sem: Semantics<V>, t: Tree) returns (ev: seq<Event>)
    ensures Decides(t, ev, sem.truth(EvalTree(sem, t))) && Truthful(sem, ev)
    decreases t
  {
    match t
    case Done(e) => ev := [Decide(e, sem.truth(EvalTree(sem, t)))];
    case Choose(c, x, y) =>
      var d := sem.truth(EvalTree(sem, c));
      var p := SomeDecision(sem, c);
      var q := SomeDecision(sem, if d then x else y);
      ev := p + q;
      TruthfulApart(sem, p, q);
  }

  lemma {:induction false} SomeRun<V>(sem: Semantics<V>, t: Tree) returns (ev: seq<Event>)
    ensures Runs(t, ev) && Truthful(sem, ev)
    decreases t
  {
    match t
    case Done(e) => ev := [Do(e)];
    case Choose(c, x, y) =>
      var p := SomeDecision(sem, c);
      var q := SomeRun(sem, if sem.truth(EvalTree(sem, c)) then x else y);
      ev := p + q;
      TruthfulApart(sem, p, q);
  }

  /** Under any semantics the reference has an execution, and it ends in the decision tree's value;
      for an ordered expression that is the value of e. */
  lemma MeaningHasValue<V>(sem: Semantics<V>, e: Expr)
    requires Splittable(e)
    ensures exists ev :: Meaning(e, ev) && Truthful(sem, ev)
    ensures forall ev :: Meaning(e, ev) && Truthful(sem, ev) ==> EndsIn(sem, ev, EvalTree(sem, Filter(e).value))
    ensures Ordered(e) ==> EvalTree(sem, Filter(e).value) == Eval(sem, e)
  {
    if Ordered(e) { FilterPreserves(sem, e); }
    var t := Filter(e).value;
    hide Filter, Ordered, Eval, EvalTree;
    var run := SomeRun(sem, t);
    assert Meaning(e, run);
    forall ev | Meaning(e, ev) && Truthful(sem, ev) ensures EndsIn(sem, ev, EvalTree(sem, t)) {
      RunsToValue(sem, t, ev);
    }
  }

  /** A statement that is kept still computes the value of its decision tree, and so that of its
      expression if that is ordered. */
  lemma KeptStatementHasValue<V>(sem: Semantics<V>, g: Cfg, m: nat, end: nat, e: Expr)
    requires Splittable(e) && StatementKept(g, m, end, e)
    ensures exists ev :: Executes(g, m, end, ev) && Truthful(sem, ev)
    ensures forall ev :: Executes(g, m, end, ev) && Truthful(sem, ev) ==>
              EndsIn(sem, ev, EvalTree(sem, Filter(e).value)) && (Ordered(e) ==> EndsIn(sem, ev, Eval(sem, e)))
  {
    MeaningHasValue(sem, e);
    var run :| Meaning(e, run) && Truthful(sem, run);
    assert Executes(g, m, end, run);
  }

  // ----- two statements that are not kept -----

  lemma TernaryParts(c: Expr, a: Expr, b: Expr)
    ensures var e := Ternary(c, a, b);
            SplitOf(e) == Split(Some(c), a, b) && Count(e) == 1 + Count(c) + Count(a) + Count(b)
  {
  }

  /** `(c1 ? c2 : c3) ? a : b`: after the nested condition has come out true, one of c2 and c3
      is executed as a statement, and both a and b can follow. */
  lemma NestedConditionIsLost(g: Cfg, next: nat, r: nat, e: Expr, c1: Expr, c2: Expr, c3: Expr, a: Expr, b: Expr)
    returns (end: nat, y: Expr)
    requires c1.Leaf? && c2.Leaf? && c3.Leaf? && a.Leaf? && b.Leaf? && e == Ternary(Ternary(c1, c2, c3), a, b)
    requires CfgOk(g, next) && r in g && g[r].expr == Some(e)
    ensures Conditional(g, r) && !Keeps(e) && (y == c2 || y == c3)
    ensures var (h, m) := (Filtered(g, next).cfg, Current(g, next, r));
            && Executes(h, m, end, [Decide(c1, true), Do(y), Do(a)])
            && Executes(h, m, end, [Decide(c1, true), Do(y), Do(b)])
  {
    var h, ret := Filtered(g, next).cfg, g[r].kind == RETURN;
    TernaryParts(e.cond, a, b);
    TernaryParts(c1, c2, c3);
    assert Splittable(e);
    var fin := SplitShape(g, next, r, e, {});
    end := fin.end;
    NestedShape(fin, e);
    var test := fin.test;
    y := if test.test.swapped then c3 else c2;
    var d := !test.test.swapped;
    NestedEmits(fin, c1, y, a, true, d);
    NestedEmits(fin, c1, y, b, false, d);
    RootExecutes(h, fin, ret, [Decide(c1, true), Do(y), Do(a)]);
    RootExecutes(h, fin, ret, [Decide(c1, true), Do(y), Do(b)]);
  }

  lemma NestedShape(sh: Shape, e: Expr)
    requires e.Ternary? && e.cond.Ternary? && e.onTrue.Leaf? && e.onFalse.Leaf?
    requires e.cond.cond.Leaf? && e.cond.onTrue.Leaf? && e.cond.onFalse.Leaf?
    requires Made(sh, e) && Complete(sh) && sh.Fork?
    ensures sh.onTrue.Stmt? && sh.onTrue.e == e.onTrue && sh.onFalse.Stmt? && sh.onFalse.e == e.onFalse
    ensures var ts := sh.test;
            && ts.Broken? && ts.test.Single? && ts.test.c == e.cond.cond
            && ts.first.Stmt? && ts.first.e == e.cond.onTrue && ts.second.Stmt? && ts.second.e == e.cond.onFalse
  {
    TernaryParts(e.cond, e.onTrue, e.onFalse);
    TernaryParts(e.cond.cond, e.cond.onTrue, e.cond.onFalse);
    hide SplitOf;
    assert Made(sh.onTrue, e.onTrue) && Made(sh.onFalse, e.onFalse) && MadeTest(sh.test, e.cond);
    var ts := sh.test;
    assert CompleteTest(ts) && ts.Broken?;
    assert Made(ts.first, e.cond.onTrue) && Made(ts.second, e.cond.onFalse) && MadeTest(ts.test, e.cond.cond);
  }

  lemma NestedEmits(sh: Shape, c: Expr, y: Expr, x: Expr, side: bool, d: bool)
    requires sh.Fork? && sh.test.Broken? && sh.test.test.Single? && sh.test.test.c == c
    requires d == !sh.test.test.swapped && (if d then sh.test.first else sh.test.second).Stmt?
    requires y == (if d then sh.test.first else sh.test.second).e
    requires (if side then sh.onTrue else sh.onFalse).Stmt? && (if side then sh.onTrue else sh.onFalse).e == x
    ensures Emits(sh, [Decide(c, true), Do(y), Do(x)])
  {
    var p, q := [Decide(c, true)] + [Do(y)], [Do(x)];
    assert EmitsTest(sh.test.test, [Decide(c, true)], d);
    assert Emits(if d then sh.test.first else sh.test.second, [Do(y)]);
    assert EmitsTest(sh.test, p, side);
    assert [Decide(c, true), Do(y), Do(x)] == p + q;
    assert Emits(if side then sh.onTrue else sh.onFalse, q);
  }

  lemma PlainTernary(e: Expr)
    requires e.Ternary? && e.cond.Leaf? && Splittable(e) && ConditionsPlain(e.onTrue) && ConditionsPlain(e.onFalse)
    ensures ConditionsPlain(e)
  {
    TernaryParts(e.cond, e.onTrue, e.onFalse);
  }

  lemma LoneShape(sh: Shape, e: Expr)
    requires e.Ternary? && e.onTrue.Ternary? && e.cond.Leaf? && e.onFalse.Leaf?
    requires e.onTrue.cond.Leaf? && e.onTrue.onTrue.Leaf? && e.onTrue.onFalse.Leaf?
    requires Splittable(e) && Made(sh, e) && Complete(sh) && sh.Fork? && (ConditionsPlain(e) ==> InOrder(sh))
    ensures !Keeps(e) && Emits(sh, [Decide(e.cond, true)] + [Do(e.onFalse)])
  {
    TernaryParts(e.cond, e.onTrue, e.onFalse);
    TernaryParts(e.onTrue.cond, e.onTrue.onTrue, e.onTrue.onFalse);
    hide SplitOf;
    PlainTernary(e.onTrue);
    PlainTernary(e);
    StmtIffPlain(sh.onTrue, e.onTrue);
    StmtIffPlain(sh.onFalse, e.onFalse);
    assert EmitsTest(sh.test, [Decide(e.cond, true)], false);
  }

  /** `c ? (d ? x : y) : b`: the true outcome of c leads to b. */
  lemma LoneTrueSideIsSwapped(g: Cfg, next: nat, r: nat, e: Expr, c: Expr, d: Expr, x: Expr, y: Expr, b: Expr)
    returns (end: nat)
    requires c.Leaf? && d.Leaf? && x.Leaf? && y.Leaf? && b.Leaf? && e == Ternary(c, Ternary(d, x, y), b)
    requires CfgOk(g, next) && r in g && g[r].expr == Some(e)
    ensures Conditional(g, r) && !Keeps(e)
    ensures Executes(Filtered(g, next).cfg, Current(g, next, r), end, [Decide(c, true), Do(b)])
  {
    var h, ret := Filtered(g, next).cfg, g[r].kind == RETURN;
    TernaryParts(c, e.onTrue, b);
    TernaryParts(d, x, y);
    var fin := SplitShape(g, next, r, e, {});
    end := fin.end;
    var p, q, ev := [Decide(c, true)], [Do(b)], [Decide(c, true), Do(b)];
    LoneShape(fin, e);
    hide *;
    assert ev == p + q;
    RootExecutes(h, fin, ret, ev);
  }

  // ----- branches -----

  /** How often the node that stands for an expression is split. */
  function Depth(e: Expr): nat
    requires Splittable(e)
    decreases Burden(e)
  {
    if Count(e) == 0 then 0 else
    FilterSteps(e);
    1 + Depth(SplitOf(e).condition.value)
  }

  function DepthAt(g: Cfg, next: nat, m: nat): nat
    requires CfgOk(g, next)
  {
    if m in g && g[m].expr.Some? then Depth(g[m].expr.value) else 0
  }

  /** Of an IF's sons x and y, split i and j times, x is split last. */
  predicate LastSplit(x: nat, i: nat, y: nat, j: nat) {
    i > 0 && (i > j || (i == j && x > y))
  }

  lemma DepthAfterCut(g: Cfg, next: nat, n: nat, m: nat)
    requires Splits(g, next, n) && m < next
    ensures CfgOk(CutAt(g, next, n), next + 4) && (DepthAt(g, next, m) > 0 <==> Conditional(g, m))
    ensures var d := DepthAt(CutAt(g, next, n), next + 4, Replaced(m, n, next));
            d == if m == n then DepthAt(g, next, n) - 1 else DepthAt(g, next, m)
  {
    CutIsOk(g, next, n);
    CutParts(g, next, n);
    FilterSteps(g[n].expr.value);
    hide SplitOf, Splittable, CfgOk;
  }

  lemma LastSplitStep(x: nat, i: nat, y: nat, j: nat, n: nat, next: nat)
    requires x != y && x < next && y < next
    requires n == x ==> i > 0 && (j > 0 ==> x < y)
    requires n == y ==> j > 0 && (i > 0 ==> y < x)
    ensures n == x ==> LastSplit(x, i, y, j) == !LastSplit(y, j, next, i - 1)
    ensures n == y ==> LastSplit(x, i, y, j) == LastSplit(x, i, next, j - 1)
  {
  }

  /** The IF's sons have changed places. */
  ghost predicate Swaps(g: Cfg, next: nat, a: nat, b: nat)
    requires CfgOk(g, next)
  {
    LastSplit(a, DepthAt(g, next, a), b, DepthAt(g, next, b))
  }

  ghost predicate IfNode(g: Cfg, r: nat, c: Expr, a: nat, b: nat) {
    r in g && (g[r].kind == IF || g[r].kind == IFLOOP) && g[r].expr == Some(c) && g[r].sons == [a, b]
  }

  ghost predicate Branches(g: Cfg, r: nat, c: Expr, a: nat, b: nat, swapped: bool) {
    if swapped then IfNode(g, r, c, b, a) else IfNode(g, r, c, a, b)
  }

  lemma Flipped(g: Cfg, r: nat, c: Expr, a: nat, b: nat, swapped: bool)
    ensures Branches(g, r, c, a, b, swapped) == Branches(g, r, c, b, a, !swapped)
  {
  }

  lemma Unswapped(g: Cfg, r: nat, c: Expr, a: nat, b: nat)
    requires IfNode(g, r, c, a, b)
    ensures Branches(g, r, c, a, b, false)
  {
  }

  /** An IF with a plain condition keeps its node and its two branches, in this order. */
  lemma BranchOrder(g: Cfg, next: nat, r: nat, c: Expr, a: nat, b: nat)
    requires CfgOk(g, next) && IfNode(g, r, c, a, b) && Count(c) == 0
    ensures Current(g, next, r) == r
    ensures Branches(Filtered(g, next).cfg, r, c, Current(g, next, a), Current(g, next, b), Swaps(g, next, a, b))
  {
    hide *;
    if a == b {
      SameSons(g, next, r, c, a);
      NeverLast(g, next, a);
      Unswapped(Filtered(g, next).cfg, r, c, Current(g, next, a), Current(g, next, b));
    } else {
      TwoSons(g, next, r, c, a, b);
    }
  }

  lemma NeverLast(g: Cfg, next: nat, a: nat)
    requires CfgOk(g, next)
    ensures !Swaps(g, next, a, a)
  {
  }

  /** An empty body leads to the same node twice. */
  lemma {:induction false} SameSons(g: Cfg, next: nat, r: nat, c: Expr, a: nat)
    requires CfgOk(g, next) && IfNode(g, r, c, a, a) && Count(c) == 0
    ensures Current(g, next, r) == r
    ensures IfNode(Filtered(g, next).cfg, r, c, Current(g, next, a), Current(g, next, a))
    decreases Total(g, next)
  {
    hide *;
    var n := FirstConditional(g, next, 0);
    FilteredStep(g, next);
    CurrentStep(g, next, r);
    CurrentStep(g, next, a);
    if n < next {
      FirstIs(g, next);
      CutShrinks(g, next, n);
      SameSonsCut(g, next, n, r, c, a);
      SameSons(CutAt(g, next, n), next + 4, r, c, Replaced(a, n, next));
    } else {
      FilteredIs(g, next);
    }
  }

  lemma SameSonsCut(g: Cfg, next: nat, n: nat, r: nat, c: Expr, a: nat)
    requires Splits(g, next, n) && IfNode(g, r, c, a, a) && Count(c) == 0
    ensures Replaced(r, n, next) == r
    ensures var (h, a') := (CutAt(g, next, n), Replaced(a, n, next)); CfgOk(h, next + 4) && IfNode(h, r, c, a', a')
  {
    CutIsOk(g, next, n);
    CutParts(g, next, n);
    RedirectedTwice(a, n, next);
    hide Redirected, SplitOf, CfgOk;
  }

  lemma {:induction false} TwoSons(g: Cfg, next: nat, r: nat, c: Expr, a: nat, b: nat)
    requires CfgOk(g, next) && IfNode(g, r, c, a, b) && a != b && Count(c) == 0
    ensures Current(g, next, r) == r
    ensures Branches(Filtered(g, next).cfg, r, c, Current(g, next, a), Current(g, next, b), Swaps(g, next, a, b))
    decreases Total(g, next)
  {
    hide *;
    SonsBelow(g, next, r, c, a, b);
    var n := FirstConditional(g, next, 0);
    if n < next {
      FirstIs(g, next);
      CutShrinks(g, next, n);
      BranchCut(g, next, n, r, c, a, b);
      var a', b' := Replaced(a, n, next), Replaced(b, n, next);
      TwoSons(CutAt(g, next, n), next + 4, r, c, if n == a then b' else a', if n == a then a' else b');
      BranchAfter(g, next, n, r, c, a, b);
    } else {
      FilteredStep(g, next);
      CurrentStep(g, next, r);
      CurrentStep(g, next, a);
      CurrentStep(g, next, b);
      NoSwap(g, next, a, b);
      FilteredIs(g, next);
      Unswapped(g, r, c, a, b);
    }
  }

  /** What is known behind the cut says the same before it. */
  lemma BranchAfter(g: Cfg, next: nat, n: nat, r: nat, c: Expr, a: nat, b: nat)
    requires CfgOk(g, next) && n == FirstConditional(g, next, 0) && n < next && Replaced(r, n, next) == r
    requires CfgOk(CutAt(g, next, n), next + 4) && Current(CutAt(g, next, n), next + 4, r) == r
    requires var (h, a', b') := (CutAt(g, next, n), Replaced(a, n, next), Replaced(b, n, next));
             var (x, y) := (if n == a then b' else a', if n == a then a' else b');
             && Branches(Filtered(h, next + 4).cfg, r, c, Current(h, next + 4, x), Current(h, next + 4, y),
                         Swaps(h, next + 4, x, y))
             && Swaps(g, next, a, b) == (if n == a then !Swaps(h, next + 4, x, y) else Swaps(h, next + 4, x, y))
    ensures Current(g, next, r) == r
    ensures Branches(Filtered(g, next).cfg, r, c, Current(g, next, a), Current(g, next, b), Swaps(g, next, a, b))
  {
    hide *;
    FilteredStep(g, next);
    CurrentStep(g, next, r);
    CurrentStep(g, next, a);
    CurrentStep(g, next, b);
    if n == a {
      Flipped(Filtered(g, next).cfg, r, c, Current(g, next, a), Current(g, next, b), Swaps(g, next, a, b));
    }
  }

  lemma SonsBelow(g: Cfg, next: nat, r: nat, c: Expr, a: nat, b: nat)
    requires CfgOk(g, next) && IfNode(g, r, c, a, b)
    ensures a < next && b < next
  {
    assert g[r].sons[0] == a && g[r].sons[1] == b;
  }

  lemma NoSwap(g: Cfg, next: nat, a: nat, b: nat)
    requires CfgOk(g, next) && FirstConditional(g, next, 0) == next && a < next
    ensures !Swaps(g, next, a, b)
  {
    assert !Conditional(g, a);
  }

  lemma BranchCut(g: Cfg, next: nat, n: nat, r: nat, c: Expr, a: nat, b: nat)
    requires Splits(g, next, n) && First(g, n) && IfNode(g, r, c, a, b) && a != b && Count(c) == 0
    requires a < next && b < next
    ensures r != n && Replaced(r, n, next) == r && Replaced(a, n, next) != Replaced(b, n, next)
    ensures var (h, a', b') := (CutAt(g, next, n), Replaced(a, n, next), Replaced(b, n, next));
            && CfgOk(h, next + 4)
            && (n == a ==> IfNode(h, r, c, b', a') && Swaps(g, next, a, b) == !Swaps(h, next + 4, b', a'))
            && (n != a ==> IfNode(h, r, c, a', b') && Swaps(g, next, a, b) == Swaps(h, next + 4, a', b'))
  {
    DepthAfterCut(g, next, n, a);
    DepthAfterCut(g, next, n, b);
    LastSplitStep(a, DepthAt(g, next, a), b, DepthAt(g, next, b), n, next);
    CutParts(g, next, n);
    RedirectedTwo(a, b, n, next);
    hide Redirected, SplitOf, CfgOk, DepthAt;
    if n == a && a > b { assert !Conditional(g, b); }
    if n == b && b > a { assert !Conditional(g, a); }
  }

  /** Within k steps from m, control first comes to one of ys at x, having shown ev. */
  ghost predicate Comes(g: Cfg, m: nat, ys: set<nat>, x: nat, ev: seq<Event>, k: nat)
    decreases k
  {
    if m in ys then m == x && ev == []
    else k > 0 && exists p, q, z :: ev == p + q && Moves(g, m, p, z) && Comes(g, z, ys, x, q, k - 1)
  }

  /** Control leaves m and then first comes to one of ys at x, having shown ev. */
  ghost predicate ComesTo(g: Cfg, m: nat, ys: set<nat>, x: nat, ev: seq<Event>) {
    exists p, q, z: nat, k: nat :: ev == p + q && Moves(g, m, p, z) && Comes(g, z, ys, x, q, k)
  }

  /** Some way in which c comes out leads to x. */
  ghost predicate Chooses(c: Expr, a: nat, b: nat, x: nat, ev: seq<Event>)
    requires Splittable(c)
  {
    exists d :: Outcome(c, ev, d) && x == if d then a else b
  }

  /** From m, control comes to a exactly by the ways in which c comes out true, and to b by those
      in which it comes out false. */
  ghost predicate BranchKept(g: Cfg, m: nat, c: Expr, a: nat, b: nat)
    requires Splittable(c)
  {
    forall ev, x :: ComesTo(g, m, {a, b}, x, ev) <==> Chooses(c, a, b, x, ev)
  }

  lemma {:induction false} ComesIsUntil(g: Cfg, m: nat, ys: set<nat>, x: nat, ev: seq<Event>, k: nat)
    requires Comes(g, m, ys, x, ev, k) && x in ys
    ensures Until(g, m, x, ev, k)
    decreases k
  {
    if m !in ys {
      var p, q, z :| ev == p + q && Moves(g, m, p, z) && Comes(g, z, ys, x, q, k - 1);
      ComesIsUntil(g, z, ys, x, q, k - 1);
    }
  }

  lemma {:induction false} EmissionHasStatement(sh: Shape, ev: seq<Event>)
    requires Emits(sh, ev)
    ensures Statements(ev) >= 1
    decreases sh
  {
    match sh
    case Stmt(_, e) => OneEvent(Do(e));
    case Fork(_, a, b, _) =>
      var p, q, d := EmittedParts(sh, ev);
      EmissionHasStatement(if d then a else b, q);
      StatementsAdd(p, q);
  }

  /** On the way through a split condition a statement is executed, and also on the way from it
      back to its own entry. */
  lemma {:induction false} SplitIsExecuted(g: Cfg, ts: TestShape, s: Shape, t: Shape, end: nat, y: nat,
                                           p: seq<Event>, z: nat, q: seq<Event>, k: nat)
    requires HeadedBetween(ts, s, t) && HoldsTest(g, ts, Entry(s), Entry(t))
    requires Holds(g, s, false, end) && Holds(g, t, false, end)
    requires y == TestEntry(ts) || (AvoidsTest(ts, y) && Avoids(s, y) && Avoids(t, y))
    requires Moves(g, TestEntry(ts), p, z) && Until(g, z, y, q, k)
    ensures Statements(p + q) >= 1
    decreases ts
  {
    hide Until, Moves, Emits;
    match ts
    case Single(id, c, swapped) =>
      var d := IfMoves(g, id, c, swapped, Entry(s), Entry(t), p, z);
      var p', q', j := Forth(g, if d then s else t, false, end, y, q, k);
      EmissionHasStatement(if d then s else t, p');
      StatementsAdd(p', q');
      StatementsAdd(p, q);
    case Broken(test, x, x', end') => SplitIsExecuted(g, test, x, x', end', y, p, z, q, k);
  }

  lemma OutcomeHasNoStatement(c: Expr, ev: seq<Event>, d: bool)
    requires Splittable(c) && Outcome(c, ev, d)
    ensures Statements(ev) == 0
  {
    NoStatement(Filter(c).value, ev, d);
  }

  lemma SomeOutcome(c: Expr) returns (ev: seq<Event>, d: bool)
    requires Splittable(c)
    ensures Outcome(c, ev, d)
  {
    d := Term({}).truth(EvalTree(Term({}), Filter(c).value));
    ev := SomeDecision(Term({}), Filter(c).value);
  }

  /** An IF with a conditional runs through a statement on its way to either son. */
  lemma BranchIsLost(g: Cfg, next: nat, r: nat, c: Expr, a: nat, b: nat)
    requires CfgOk(g, next) && IfNode(g, r, c, a, b) && Count(c) > 0
    ensures !BranchKept(Filtered(g, next).cfg, Current(g, next, r), c, Current(g, next, a), Current(g, next, b))
  {
    hide *;
    SonsBelow(g, next, r, c, a, b);
    IfIsConditional(g, next, r, c, a, b);
    var h, m, a', b' := Filtered(g, next), Current(g, next, r), Current(g, next, a), Current(g, next, b);
    var others := {a, b} - {r};
    var fin := SplitShape(g, next, r, c, others);
    PlacedParts(h.cfg, h.next, fin, g[r].kind == RETURN, c, CurrentAll(g, next, Elements(g[r].sons)),
                CurrentAll(g, next, others));
    SonsElsewhere(g, next, others, a);
    SonsElsewhere(g, next, others, b);
    var ev, d := SomeOutcome(c);
    if BranchKept(h.cfg, m, c, a', b') {
      KeptOutcome(h.cfg, m, c, a', b', ev, d);
      WayHasStatement(h.cfg, fin, {a', b'}, if d then a' else b', ev);
      OutcomeHasNoStatement(c, ev, d);
    }
  }

  lemma IfIsConditional(g: Cfg, next: nat, r: nat, c: Expr, a: nat, b: nat)
    requires CfgOk(g, next) && IfNode(g, r, c, a, b) && Count(c) > 0
    ensures Conditional(g, r) && g[r].expr == Some(c) && g[r].kind != RETURN && Splittable(c)
  {
  }

  lemma PlacedParts(g: Cfg, next: nat, sh: Shape, ret: bool, e: Expr, sons: set<nat>, others: set<nat>)
    requires Placed(g, next, sh, ret, e, sons, others)
    ensures HoldsRoot(g, sh, ret) && Headed(sh) && forall y :: y in others ==> Avoids(sh, y)
  {
  }

  lemma SonsElsewhere(g: Cfg, next: nat, others: set<nat>, y: nat)
    requires CfgOk(g, next)
    ensures y in others ==> Current(g, next, y) in CurrentAll(g, next, others)
  {
  }

  lemma KeptOutcome(g: Cfg, m: nat, c: Expr, a: nat, b: nat, ev: seq<Event>, d: bool)
    requires Splittable(c) && BranchKept(g, m, c, a, b) && Outcome(c, ev, d)
    ensures ComesTo(g, m, {a, b}, if d then a else b, ev)
  {
    hide Outcome, ComesTo, Splittable;
    assert Chooses(c, a, b, if d then a else b, ev);
  }

  lemma WayHasStatement(g: Cfg, sh: Shape, ys: set<nat>, x: nat, ev: seq<Event>)
    requires HoldsRoot(g, sh, false) && Headed(sh) && sh.Fork? && (x == Entry(sh) || Avoids(sh, x))
    requires x in ys && ComesTo(g, Entry(sh), ys, x, ev)
    ensures Statements(ev) >= 1
  {
    hide Until, Comes, Moves;
    var p, q, z: nat, k: nat :| ev == p + q && Moves(g, Entry(sh), p, z) && Comes(g, z, ys, x, q, k);
    ComesIsUntil(g, z, ys, x, q, k);
    SplitIsExecuted(g, sh.test, sh.onTrue, sh.onFalse, sh.end, x, p, z, q, k);
  }

  /** One decision leads to the son in its place. */
  lemma PlainBranch(g: Cfg, r: nat, c: Expr, x: nat, y: nat, z: nat, ev: seq<Event>)
    requires IfNode(g, r, c, x, y)
    ensures ComesTo(g, r, {x, y}, z, ev)
        <==> (z == x && ev == [Decide(c, true)]) || (z == y && ev == [Decide(c, false)])
  {
    if ComesTo(g, r, {x, y}, z, ev) {
      var p, q, w: nat, k: nat :| ev == p + q && Moves(g, r, p, w) && Comes(g, w, {x, y}, z, q, k);
      assert p + q == p;
    }
    PlainMove(g, r, c, x, y, x, true);
    PlainMove(g, r, c, x, y, y, false);
  }

  lemma PlainMove(g: Cfg, r: nat, c: Expr, x: nat, y: nat, z: nat, d: bool)
    requires IfNode(g, r, c, x, y) && z == if d then x else y
    ensures ComesTo(g, r, {x, y}, z, [Decide(c, d)])
  {
    var ev := [Decide(c, d)];
    assert Moves(g, r, ev, z) && Comes(g, z, {x, y}, z, [], 0);
    assert ev == ev + [];
  }

  lemma {:induction false} CurrentDistinct(g: Cfg, next: nat, x: nat, y: nat)
    requires CfgOk(g, next) && x != y && x < next && y < next
    ensures Current(g, next, x) != Current(g, next, y)
    decreases Total(g, next)
  {
    hide *;
    var n := FirstConditional(g, next, 0);
    CurrentStep(g, next, x);
    CurrentStep(g, next, y);
    if n < next {
      FirstIs(g, next);
      CutShrinks(g, next, n);
      ReplacedApart(x, y, n, next);
      CurrentDistinct(CutAt(g, next, n), next + 4, Replaced(x, n, next), Replaced(y, n, next));
    }
  }

  lemma ReplacedApart(x: nat, y: nat, n: nat, next: nat)
    requires x != y && x < next && y < next
    ensures Replaced(x, n, next) != Replaced(y, n, next) && Replaced(x, n, next) < next + 4
    ensures Replaced(y, n, next) < next + 4
  {
  }

  lemma PlainBranchKept(g: Cfg, next: nat, r: nat, c: Expr, a: nat, b: nat)
    requires CfgOk(g, next) && IfNode(g, r, c, a, b) && Count(c) == 0 && Splittable(c)
    ensures BranchKept(Filtered(g, next).cfg, Current(g, next, r), c, Current(g, next, a), Current(g, next, b))
        <==> !Swaps(g, next, a, b)
  {
    hide *;
    SonsBelow(g, next, r, c, a, b);
    IfBelow(g, next, r, c, a, b);
    BranchOrder(g, next, r, c, a, b);
    if a == b { NeverLast(g, next, a); } else { CurrentDistinct(g, next, a, b); }
    FinalBranch(Filtered(g, next).cfg, r, c, Current(g, next, a), Current(g, next, b), Swaps(g, next, a, b));
  }

  lemma FinalBranch(g: Cfg, r: nat, c: Expr, a: nat, b: nat, swapped: bool)
    requires Branches(g, r, c, a, b, swapped) && (swapped ==> a != b) && Count(c) == 0 && Splittable(c)
    ensures BranchKept(g, r, c, a, b) <==> !swapped
  {
    forall ev, z
      ensures ComesTo(g, r, {a, b}, z, ev)
          <==> (z == a && ev == [Decide(c, !swapped)]) || (z == b && ev == [Decide(c, swapped)])
      ensures Chooses(c, a, b, z, ev)
          <==> (z == a && ev == [Decide(c, true)]) || (z == b && ev == [Decide(c, false)])
    {
      EitherBranch(g, r, c, a, b, swapped, z, ev);
      PlainChoice(c, a, b, z, ev);
    }
    hide ComesTo, Chooses, Branches, Splittable;
    if swapped {
      assert [Decide(c, true)][0] != [Decide(c, false)][0];
      assert !ComesTo(g, r, {a, b}, a, [Decide(c, true)]) && Chooses(c, a, b, a, [Decide(c, true)]);
    }
  }

  lemma PlainChoice(c: Expr, a: nat, b: nat, z: nat, ev: seq<Event>)
    requires Count(c) == 0 && Splittable(c)
    ensures Chooses(c, a, b, z, ev)
        <==> (z == a && ev == [Decide(c, true)]) || (z == b && ev == [Decide(c, false)])
  {
    forall d ensures Outcome(c, ev, d) <==> ev == [Decide(c, d)] { PlainOutcome(c, ev, d); }
    hide Outcome, Splittable;
    assert ev == [Decide(c, true)] ==> Outcome(c, ev, true);
    assert ev == [Decide(c, false)] ==> Outcome(c, ev, false);
  }

  lemma EitherBranch(g: Cfg, r: nat, c: Expr, a: nat, b: nat, swapped: bool, z: nat, ev: seq<Event>)
    requires Branches(g, r, c, a, b, swapped)
    ensures ComesTo(g, r, {a, b}, z, ev)
        <==> (z == a && ev == [Decide(c, !swapped)]) || (z == b && ev == [Decide(c, swapped)])
  {
    hide ComesTo;
    assert {a, b} == {b, a};
    if swapped { PlainBranch(g, r, c, b, a, z, ev); } else { PlainBranch(g, r, c, a, b, z, ev); }
  }

  lemma IfBelow(g: Cfg, next: nat, r: nat, c: Expr, a: nat, b: nat)
    requires CfgOk(g, next) && IfNode(g, r, c, a, b)
    ensures r < next && Splittable(c)
  {
  }

  /** An IF or IFLOOP keeps its branches exactly if its condition holds no conditional and its
      first son is not split after its second; its sons may be the same node, or itself. */
  lemma BranchKeptIff(g: Cfg, next: nat, r: nat, c: Expr, a: nat, b: nat)
    requires CfgOk(g, next) && IfNode(g, r, c, a, b)
    ensures BranchKept(Filtered(g, next).cfg, Current(g, next, r), c, Current(g, next, a), Current(g, next, b))
        <==> Count(c) == 0 && !Swaps(g, next, a, b)
  {
    IfBelow(g, next, r, c, a, b);
    if Count(c) > 0 {
      BranchIsLost(g, next, r, c, a, b);
    } else {
      PlainBranchKept(g, next, r, c, a, b);
    }
  }

  // ----- the rest of the graph -----

  lemma {:induction false} WithoutLength(s: seq<nat>, n: nat)
    ensures |Without(s, n)| + Occurrences(s, n) == |s|
  {
    if s != [] { WithoutLength(s[..|s| - 1], n); }
  }

  /** Node m has the kind and the expression of node o, and as many sons, the given ones. */
  ghost predicate Alike(m: Node, o: Node, sons: set<nat>) {
    m.kind == o.kind && m.expr == o.expr && |m.sons| == |o.sons| && Elements(m.sons) == sons
  }

  lemma OtherCut(g: Cfg, next: nat, n: nat, m: nat)
    requires Splits(g, next, n) && m in g && m != n
    ensures var h := CutAt(g, next, n);
            m in h && Alike(h[m], g[m], ReplacedAll(Elements(g[m].sons), n, next))
            && (Conditional(h, m) <==> Conditional(g, m))
  {
    CutParts(g, next, n);
    RedirectedElements(g[m].sons, n, next);
    WithoutLength(g[m].sons, n);
    hide Without, Occurrences, SplitOf, CfgOk, ReplacedAll;
  }

  /** A node without a conditional, the entry point among them, keeps its number, its kind and its
      expression, and its sons are the nodes that stand for its sons. */
  lemma {:induction false} OthersStay(g: Cfg, next: nat, m: nat)
    requires CfgOk(g, next) && m in g && !Conditional(g, m)
    ensures var h := Filtered(g, next).cfg;
            m in h && Alike(h[m], g[m], CurrentAll(g, next, Elements(g[m].sons)))
    ensures Current(g, next, m) == m
    decreases Total(g, next)
  {
    hide *;
    var n := FirstConditional(g, next, 0);
    FilteredStep(g, next);
    CurrentStep(g, next, m);
    CurrentAllStep(g, next, Elements(g[m].sons));
    if n < next {
      FirstIs(g, next);
      CutShrinks(g, next, n);
      NotSplit(g, next, n, m);
      OtherCut(g, next, n, m);
      OthersStay(CutAt(g, next, n), next + 4, m);
      AlikeSons(CutAt(g, next, n)[m], g[m], ReplacedAll(Elements(g[m].sons), n, next));
      AlikeTrans(CutAt(g, next, n)[m], g[m], ReplacedAll(Elements(g[m].sons), n, next),
                 Filtered(g, next).cfg[m], CurrentAll(g, next, Elements(g[m].sons)));
    } else {
      FilteredIs(g, next);
      AlikeItself(g[m]);
    }
  }

  lemma NotSplit(g: Cfg, next: nat, n: nat, m: nat)
    requires Splits(g, next, n) && !Conditional(g, m)
    ensures m != n && Replaced(m, n, next) == m
  {
  }

  lemma AlikeItself(o: Node)
    ensures Alike(o, o, Elements(o.sons))
  {
  }

  lemma AlikeSons(m: Node, o: Node, sons: set<nat>)
    requires Alike(m, o, sons)
    ensures Elements(m.sons) == sons
  {
  }

  lemma AlikeTrans(m: Node, o: Node, sons: set<nat>, l: Node, last: set<nat>)
    requires Alike(m, o, sons) && Alike(l, m, last)
    ensures Alike(l, o, last)
  {
  }

  /** What stands for a node is a node. */
  lemma {:induction false} CurrentIsNode(g: Cfg, next: nat, m: nat)
    requires CfgOk(g, next) && m in g
    ensures Current(g, next, m) in Filtered(g, next).cfg
    decreases Total(g, next)
  {
    hide *;
    var n := FirstConditional(g, next, 0);
    FilteredStep(g, next);
    CurrentStep(g, next, m);
    if n < next {
      FirstIs(g, next);
      CutShrinks(g, next, n);
      CutKeys(g, next, n);
      ReplacedIsNode(g, next, n, m);
      CurrentIsNode(CutAt(g, next, n), next + 4, Replaced(m, n, next));
    } else {
      FilteredIs(g, next);
    }
  }

  lemma CutKeys(g: Cfg, next: nat, n: nat)
    requires Splits(g, next, n)
    ensures n in g && CutAt(g, next, n).Keys == g.Keys - {n} + {next, next + 1, next + 2, next + 3}
    ensures forall m :: m in g ==> m < next
  {
    CutParts(g, next, n);
    hide SplitOf, CfgOk, Redirected;
  }

  lemma ReplacedIsNode(g: Cfg, next: nat, n: nat, m: nat)
    requires Splits(g, next, n) && m in g
    ensures Replaced(m, n, next) in CutAt(g, next, n)
  {
    CutKeys(g, next, n);
  }

  /** A node with a conditional is gone. */
  lemma {:induction false} SplitNodeIsGone(g: Cfg, next: nat, m: nat)
    requires CfgOk(g, next) && m < next && (m in g ==> Conditional(g, m))
    ensures m !in Filtered(g, next).cfg
    decreases Total(g, next)
  {
    hide *;
    var n := FirstConditional(g, next, 0);
    FilteredStep(g, next);
    if n < next {
      FirstIs(g, next);
      CutShrinks(g, next, n);
      CutKeys(g, next, n);
      if m in g && m != n { OtherCut(g, next, n, m); }
      SplitNodeIsGone(CutAt(g, next, n), next + 4, m);
    } else {
      FilteredIs(g, next);
      NoneFirst(g, next, m);
    }
  }

  lemma NoneFirst(g: Cfg, next: nat, m: nat)
    requires CfgOk(g, next) && FirstConditional(g, next, 0) == next && m < next
    ensures !Conditional(g, m)
  {
  }

  predicate AllIn(sons: seq<nat>, g: Cfg) { forall i :: 0 <= i < |sons| ==> sons[i] in g }

  /** All sons are nodes of the graph. */
  ghost predicate NoDangling(g: Cfg) {
    forall m :: m in g ==> AllIn(g[m].sons, g)
  }

  /** Splitting leaves no son that is not a node. */
  lemma {:induction false} NothingDangles(g: Cfg, next: nat)
    requires CfgOk(g, next) && NoDangling(g)
    ensures NoDangling(Filtered(g, next).cfg)
    decreases Total(g, next)
  {
    hide *;
    var n := FirstConditional(g, next, 0);
    FilteredStep(g, next);
    if n < next {
      FirstIs(g, next);
      CutShrinks(g, next, n);
      CutHasNoDangling(g, next, n);
      NothingDangles(CutAt(g, next, n), next + 4);
    } else {
      FilteredIs(g, next);
    }
  }

  lemma CutHasNoDangling(g: Cfg, next: nat, n: nat)
    requires Splits(g, next, n) && NoDangling(g)
    ensures NoDangling(CutAt(g, next, n))
  {
    var h := CutAt(g, next, n);
    CutKeys(g, next, n);
    PartSonsStay(g, next, n);
    hide CutAt, AllIn, CfgOk, Conditional;
    forall m | m in h ensures AllIn(h[m].sons, h) {
      if m in g { OtherSonsStay(g, next, n, m); }
    }
  }

  lemma OtherSonsStay(g: Cfg, next: nat, n: nat, m: nat)
    requires Splits(g, next, n) && NoDangling(g) && m in g && m != n
    ensures m in CutAt(g, next, n) && AllIn(CutAt(g, next, n)[m].sons, CutAt(g, next, n))
  {
    RedirectedStays(g, next, n, m);
    CutParts(g, next, n);
    hide SplitOf, CfgOk, Redirected, NoDangling, AllIn;
  }

  lemma PartSonsStay(g: Cfg, next: nat, n: nat)
    requires Splits(g, next, n) && NoDangling(g)
    ensures {next, next + 1, next + 2, next + 3} <= CutAt(g, next, n).Keys
    ensures var h := CutAt(g, next, n);
            && AllIn(h[next].sons, h) && AllIn(h[next + 1].sons, h)
            && AllIn(h[next + 2].sons, h) && AllIn(h[next + 3].sons, h)
  {
    CutKeys(g, next, n);
    RedirectedStays(g, next, n, n);
    NewSons(g, next, n);
    hide CfgOk, Conditional, CutAt, Redirected, NoDangling, PartSons;
    PartSonsIn(g[n].kind, next + 3, CutAt(g, next, n));
  }

  lemma PartSonsIn(kind: Kind, end: nat, h: Cfg)
    requires end in h
    ensures AllIn(PartSons(kind, end), h)
  {
  }

  lemma NewSons(g: Cfg, next: nat, n: nat)
    requires Splits(g, next, n)
    ensures n in g && {next, next + 1, next + 2, next + 3} <= CutAt(g, next, n).Keys
    ensures var h := CutAt(g, next, n);
            && h[next].sons == [next + 1, next + 2] && h[next + 1].sons == PartSons(g[n].kind, next + 3)
            && h[next + 2].sons == PartSons(g[n].kind, next + 3)
            && h[next + 3].sons == Redirected(g[n].sons, n, next)
  {
    CutParts(g, next, n);
    hide CfgOk, Redirected, PartSons, SplitOf;
  }

  lemma RedirectedStays(g: Cfg, next: nat, n: nat, m: nat)
    requires Splits(g, next, n) && NoDangling(g) && m in g
    ensures AllIn(Redirected(g[m].sons, n, next), CutAt(g, next, n))
  {
    CutKeys(g, next, n);
    RedirectedElements(g[m].sons, n, next);
    var s := Redirected(g[m].sons, n, next);
    hide Redirected, CutAt, CfgOk;
    forall i | 0 <= i < |s| ensures s[i] in CutAt(g, next, n) {
      assert s[i] in Elements(s);
      var y :| y in Elements(g[m].sons) && s[i] == Replaced(y, n, next);
    }
  }

  /** Each split takes four numbers and makes the graph larger by three nodes. */
  lemma {:induction false} NodeCount(g: Cfg, next: nat)
    requires CfgOk(g, next)
    ensures var h := Filtered(g, next); h.next >= next && 4 * (|h.cfg| - |g|) == 3 * (h.next - next)
    decreases Total(g, next)
  {
    hide *;
    var n := FirstConditional(g, next, 0);
    FilteredStep(g, next);
    if n < next {
      FirstIs(g, next);
      CutShrinks(g, next, n);
      CutCount(g, next, n);
      NodeCount(CutAt(g, next, n), next + 4);
    }
  }

  lemma CutCount(g: Cfg, next: nat, n: nat)
    requires Splits(g, next, n)
    ensures |CutAt(g, next, n)| == |g| + 3
  {
    CutKeys(g, next, n);
    hide CutAt, CfgOk, Conditional;
    ThreeMore(g.Keys, n, next);
    assert |CutAt(g, next, n).Keys| == |CutAt(g, next, n)| && |g.Keys| == |g|;
  }

  lemma ThreeMore(s: set<nat>, n: nat, next: nat)
    requires n in s && forall m :: m in s ==> m < next
    ensures |s - {n} + {next, next + 1, next + 2, next + 3}| == |s| + 3
  {
    var rest, added := s - {n}, {next, next + 1, next + 2, next + 3};
    assert rest !! added;
    assert |rest + added| == |rest| + |added| && |added| == 4;
    assert |rest| == |s| - 1;
  }
}
