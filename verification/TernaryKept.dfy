/** Exactly when splitting a node's expression keeps its executions. */
module TernaryKept {
  import opened Collections
  import opened ExpressionSyntax
  import opened TernaryCfg
  import opened TernaryPaths
  import opened TernarySpec
  import opened TernaryTrees

  // ----- from the first split to the last -----

  lemma RootRecut(g: Cfg, next: nat, n: nat, sh: Shape, ret: bool)
    requires Splits(g, next, n) && HoldsRoot(g, sh, ret)
    ensures HoldsRoot(CutAt(g, next, n), Recut(sh, next, n), ret) && NoPlain(sh, n)
    ensures Entry(Recut(sh, next, n)) == Replaced(Entry(sh), n, next)
  {
    if sh.Stmt? { RootStmtRecut(g, next, n, sh.id, sh.e, ret); } else { RootForkRecut(g, next, n, sh, ret); }
  }

  lemma RootStmtRecut(g: Cfg, next: nat, n: nat, id: nat, e: Expr, ret: bool)
    requires Splits(g, next, n) && HoldsRoot(g, Stmt(id, e), ret)
    ensures var sh := Recut(Stmt(id, e), next, n);
            HoldsRoot(CutAt(g, next, n), sh, ret) && Entry(sh) == Replaced(id, n, next)
    ensures NoPlain(Stmt(id, e), n)
  {
    if id == n { RootStmtSplit(g, next, n, e, ret); } else { RootStmtStays(g, next, n, id, e, ret); }
  }

  lemma RootStmtSplit(g: Cfg, next: nat, n: nat, e: Expr, ret: bool)
    requires Splits(g, next, n) && HoldsRoot(g, Stmt(n, e), ret)
    ensures var sh := Recut(Stmt(n, e), next, n); HoldsRoot(CutAt(g, next, n), sh, ret) && Entry(sh) == next
  {
    PartsHold(g, next, n, ret);
    NewParts(g, next, n, e);
    hide Redirected, SplitOf, CfgOk, CutAt, Conditional, HoldsTest, Holds, EndIf;
    NewEndIf(g, next, n, ret);
  }

  lemma NewParts(g: Cfg, next: nat, n: nat, e: Expr)
    requires Splits(g, next, n) && n in g && g[n].expr == Some(e)
    ensures var s := SplitOf(e);
            && g[n].expr.value == e && s.Split? && s.condition.Some?
            && Recut(Stmt(n, e), next, n)
               == Fork(Single(next, s.condition.value, false), Stmt(next + 1, s.onTrue), Stmt(next + 2, s.onFalse),
                       next + 3)
  {
    CutParts(g, next, n);
    hide SplitOf, CfgOk, CutAt, Conditional;
  }

  lemma NewEndIf(g: Cfg, next: nat, n: nat, ret: bool)
    requires Splits(g, next, n) && (g[n].kind == RETURN <==> ret)
    ensures var h := CutAt(g, next, n); next + 3 in h && h[next + 3].kind == ENDIF && h[next + 3].expr.None?
  {
    PartsHold(g, next, n, ret);
    hide Redirected, SplitOf, CfgOk, CutAt, Conditional, HoldsTest, Holds;
  }

  lemma RootStmtStays(g: Cfg, next: nat, n: nat, id: nat, e: Expr, ret: bool)
    requires Splits(g, next, n) && HoldsRoot(g, Stmt(id, e), ret) && id != n
    ensures Recut(Stmt(id, e), next, n) == Stmt(id, e) && HoldsRoot(CutAt(g, next, n), Stmt(id, e), ret)
  {
    CutParts(g, next, n);
    hide Redirected, SplitOf, CfgOk;
  }

  lemma RootForkRecut(g: Cfg, next: nat, n: nat, sh: Shape, ret: bool)
    requires Splits(g, next, n) && HoldsRoot(g, sh, ret) && sh.Fork?
    ensures HoldsRoot(CutAt(g, next, n), Recut(sh, next, n), ret) && NoPlain(sh, n)
    ensures Entry(Recut(sh, next, n)) == Replaced(Entry(sh), n, next)
  {
    hide Holds, HoldsTest, Avoids, AvoidsTest, NoPlain, NoPlainTest, Cut, CutAt, SplitOf, CfgOk, Conditional;
    match sh
    case Fork(test, a, b, end) =>
      HeldTestIsNotPlain(g, next, n, test, Entry(a), Entry(b));
      HeldIsNotPlain(g, next, n, a, ret, end);
      HeldIsNotPlain(g, next, n, b, ret, end);
      ForkIsNotPlain(test, a, b, end, n);
      RecutTestHolds(g, next, n, test, Entry(a), Entry(b));
      RecutHolds(g, next, n, a, ret, end);
      RecutHolds(g, next, n, b, ret, end);
      EndIfStays(g, next, n, end);
      RecutTestAvoids(test, Entry(a), Entry(b), next, n, end);
      RecutAvoids(a, next, n, end);
      RecutAvoids(b, next, n, end);
  }

  lemma ForkIsNotPlain(test: TestShape, a: Shape, b: Shape, end: nat, n: nat)
    requires NoPlainTest(test, n) && NoPlain(a, n) && NoPlain(b, n)
    ensures NoPlain(Fork(test, a, b, end), n)
  {
  }

  lemma EndIfStays(g: Cfg, next: nat, n: nat, end: nat)
    requires Splits(g, next, n) && end in g && g[end].kind == ENDIF && g[end].expr.None?
    ensures var h := CutAt(g, next, n); end in h && h[end].kind == ENDIF && h[end].expr.None?
    ensures end < next && Replaced(end, n, next) == end
  {
    CutParts(g, next, n);
  }

  lemma RootInOrder(g: Cfg, next: nat, n: nat, sh: Shape, e: Expr, ret: bool)
    requires Splits(g, next, n) && First(g, n) && HoldsRoot(g, sh, ret) && InOrder(sh)
    requires Made(sh, e) && Splittable(e) && ConditionsPlain(e)
    ensures InOrder(Recut(sh, next, n))
  {
    match sh
    case Stmt(id, x) =>
      if id == n { FilterSteps(e); }
    case Fork(test, a, b, end) =>
      FilterSteps(e);
      RecutInOrder(g, next, n, a, SplitOf(e).onTrue, ret, end);
      RecutInOrder(g, next, n, b, SplitOf(e).onFalse, ret, end);
      RecutPair(g, next, n, test, a, b, ret, end);
  }

  /** The node that stands for m when all splitting is done. */
  ghost function Current(g: Cfg, next: nat, m: nat): nat
    requires CfgOk(g, next)
    decreases Total(g, next)
  {
    var n := FirstConditional(g, next, 0);
    if n == next then m
    else
      CutIsOk(g, next, n);
      CutShrinks(g, next, n);
      Current(CutAt(g, next, n), next + 4, Replaced(m, n, next))
  }

  lemma CurrentStep(g: Cfg, next: nat, m: nat)
    requires CfgOk(g, next)
    ensures var n := FirstConditional(g, next, 0);
            && (n < next ==> CfgOk(CutAt(g, next, n), next + 4)
                             && Current(g, next, m) == Current(CutAt(g, next, n), next + 4, Replaced(m, n, next)))
            && (n == next ==> Current(g, next, m) == m)
  {
    var n := FirstConditional(g, next, 0);
    if n < next { CutIsOk(g, next, n); }
  }

  /** What is known about the shape of a root throughout. */
  ghost predicate Shaped(g: Cfg, sh: Shape, ret: bool, e: Expr) {
    HoldsRoot(g, sh, ret) && Splittable(e) && Made(sh, e) && (ConditionsPlain(e) ==> InOrder(sh))
  }

  lemma ShapedStep(g: Cfg, next: nat, n: nat, sh: Shape, ret: bool, e: Expr)
    requires Splits(g, next, n) && First(g, n) && Shaped(g, sh, ret, e)
    ensures Shaped(CutAt(g, next, n), Recut(sh, next, n), ret, e)
    ensures Entry(Recut(sh, next, n)) == Replaced(Entry(sh), n, next)
  {
    RootRecut(g, next, n, sh, ret);
    RecutMade(sh, e, next, n);
    if ConditionsPlain(e) { RootInOrder(g, next, n, sh, e, ret); }
  }

  lemma FilteredIs(g: Cfg, next: nat)
    requires Graph(g, next).cfg == g && CfgOk(g, next) && FirstConditional(g, next, 0) == next
    ensures Filtered(g, next).cfg == g
  {
  }

  lemma FirstIs(g: Cfg, next: nat)
    requires CfgOk(g, next) && FirstConditional(g, next, 0) < next
    ensures var n := FirstConditional(g, next, 0); Splits(g, next, n) && First(g, n)
  {
  }

  lemma {:induction false} HeldIsComplete(g: Cfg, sh: Shape, ret: bool, y: nat)
    requires Holds(g, sh, ret, y) && forall n :: !Conditional(g, n)
    ensures Complete(sh)
    decreases sh
  {
    match sh
    case Stmt(id, _) => assert !Conditional(g, id);
    case Fork(test, a, b, end) =>
      HeldTestIsComplete(g, test, Entry(a), Entry(b));
      HeldIsComplete(g, a, ret, end);
      HeldIsComplete(g, b, ret, end);
  }

  lemma {:induction false} HeldTestIsComplete(g: Cfg, ts: TestShape, a: nat, b: nat)
    requires HoldsTest(g, ts, a, b) && forall n :: !Conditional(g, n)
    ensures CompleteTest(ts)
    decreases ts
  {
    match ts
    case Single(id, _, _) => assert !Conditional(g, id);
    case Broken(test, s, t, end) =>
      HeldTestIsComplete(g, test, Entry(s), Entry(t));
      HeldIsComplete(g, s, false, end);
      HeldIsComplete(g, t, false, end);
  }

  // ----- executions of a shape -----

  ghost predicate Emits(sh: Shape, ev: seq<Event>) {
    match sh
    case Stmt(_, e) => ev == [Do(e)]
    case Fork(test, a, b, _) => exists p, q, d :: ev == p + q && EmitsTest(test, p, d) && Emits(if d then a else b, q)
  }

  /** A test that has been split shows what the split statement shows, and then takes either side. */
  ghost predicate EmitsTest(ts: TestShape, ev: seq<Event>, d: bool) {
    match ts
    case Single(_, c, swapped) => ev == [Decide(c, d != swapped)]
    case Broken(test, a, b, _) => exists p, q, x :: ev == p + q && EmitsTest(test, p, x) && Emits(if x then a else b, q)
  }

  /** What is left to do behind a shape: nothing if it returns. */
  ghost predicate Rest(g: Cfg, ret: bool, z: nat, y: nat, ev: seq<Event>, k: nat) {
    if ret then ev == [] else Until(g, z, y, ev, k)
  }

  lemma Step(g: Cfg, m: nat, y: nat, ev: seq<Event>, k: nat) returns (p: seq<Event>, q: seq<Event>, x: nat)
    requires m != y && m in g && g[m].sons != [] && Until(g, m, y, ev, k)
    ensures k > 0 && ev == p + q && Moves(g, m, p, x) && Until(g, x, y, q, k - 1)
  {
    p, q, x :| ev == p + q && Moves(g, m, p, x) && Until(g, x, y, q, k - 1);
  }

  /** An execution from the entry of a shape goes through the shape. */
  lemma {:induction false} Forth(g: Cfg, sh: Shape, ret: bool, z: nat, y: nat, ev: seq<Event>, k: nat)
    returns (p: seq<Event>, q: seq<Event>, j: nat)
    requires Holds(g, sh, ret, z) && Avoids(sh, y) && Until(g, Entry(sh), y, ev, k)
    ensures ev == p + q && Emits(sh, p) && Rest(g, ret, z, y, q, j)
    decreases sh
  {
    hide Until, Moves;
    match sh
    case Stmt(id, e) =>
      if ret {
        StatementEnds(g, id, y, ev, k);
        p, q, j := ev, [], 0;
      } else {
        var x;
        p, q, x := Step(g, id, y, ev, k);
        StatementMoves(g, id, p, x);
        j := k - 1;
      }
    case Fork(test, a, b, end) =>
      assert HoldsTest(g, test, Entry(a), Entry(b)) && EndIf(g, end, Tail(ret, z)) && end != y;
      assert Holds(g, a, ret, end) && Holds(g, b, ret, end) && AvoidsTest(test, y) && Avoids(a, y) && Avoids(b, y);
      hide Holds, HoldsTest, Avoids, AvoidsTest, EndIf, EmitsTest;
      var p1, q1, d, j1 := ForthTest(g, test, Entry(a), Entry(b), y, ev, k);
      var p2, q2, j2 := Forth(g, if d then a else b, ret, end, y, q1, j1);
      p := p1 + p2;
      Associative(p1, p2, q2);
      if ret {
        q, j := q2, j2;
      } else {
        q := EndIfOn(g, end, [z], y, q2, j2);
        j := j2 - 1;
      }
  }

  lemma StatementEnds(g: Cfg, m: nat, y: nat, ev: seq<Event>, k: nat)
    requires m != y && m in g && g[m].sons == [] && Until(g, m, y, ev, k)
    ensures ev == Shown(g[m])
  {
  }

  lemma StatementMoves(g: Cfg, m: nat, ev: seq<Event>, x: nat)
    requires m in g && g[m].kind != IF && g[m].kind != IFLOOP && Moves(g, m, ev, x)
    ensures ev == Shown(g[m]) && x in g[m].sons
  {
  }

  /** An ENDIF shows nothing; with one son there is one way on. */
  lemma EndIfOn(g: Cfg, end: nat, sons: seq<nat>, y: nat, ev: seq<Event>, k: nat) returns (q: seq<Event>)
    requires EndIf(g, end, sons) && |sons| == 1 && end != y && Until(g, end, y, ev, k)
    ensures q == ev && k > 0 && Until(g, sons[0], y, q, k - 1)
  {
    var p, x;
    p, q, x := Step(g, end, y, ev, k);
    StatementMoves(g, end, p, x);
    assert p + q == q;
  }

  lemma EndIfEither(g: Cfg, end: nat, a: nat, b: nat, y: nat, ev: seq<Event>, k: nat) returns (d: bool)
    requires (EndIf(g, end, [a, b]) || EndIf(g, end, [b, a])) && end != y && Until(g, end, y, ev, k)
    ensures k > 0 && Until(g, if d then a else b, y, ev, k - 1)
  {
    var p, q, x := Step(g, end, y, ev, k);
    StatementMoves(g, end, p, x);
    assert p + q == q;
    d := x == a;
  }

  lemma {:induction false} ForthTest(g: Cfg, ts: TestShape, a: nat, b: nat, y: nat, ev: seq<Event>, k: nat)
    returns (p: seq<Event>, q: seq<Event>, d: bool, j: nat)
    requires HoldsTest(g, ts, a, b) && AvoidsTest(ts, y) && Until(g, TestEntry(ts), y, ev, k)
    ensures ev == p + q && EmitsTest(ts, p, d) && Until(g, if d then a else b, y, q, j)
    decreases ts
  {
    hide Until, Moves;
    match ts
    case Single(id, c, swapped) =>
      var x;
      p, q, x := Step(g, id, y, ev, k);
      d := IfMoves(g, id, c, swapped, a, b, p, x);
      j := k - 1;
    case Broken(test, s, t, end) =>
      assert HoldsTest(g, test, Entry(s), Entry(t)) && end != y && (EndIf(g, end, [a, b]) || EndIf(g, end, [b, a]));
      assert Holds(g, s, false, end) && Holds(g, t, false, end);
      assert AvoidsTest(test, y) && Avoids(s, y) && Avoids(t, y);
      hide Holds, HoldsTest, Avoids, AvoidsTest, EndIf, Emits;
      var p1, q1, x, j1 := ForthTest(g, test, Entry(s), Entry(t), y, ev, k);
      var p2, q2, j2 := Forth(g, if x then s else t, false, end, y, q1, j1);
      p, q := p1 + p2, q2;
      Associative(p1, p2, q2);
      d := EndIfEither(g, end, a, b, y, q2, j2);
      j := j2 - 1;
  }

  lemma IfMoves(g: Cfg, m: nat, c: Expr, swapped: bool, a: nat, b: nat, ev: seq<Event>, x: nat) returns (d: bool)
    requires HoldsTest(g, Single(m, c, swapped), a, b) && Moves(g, m, ev, x)
    ensures ev == [Decide(c, d != swapped)] && x == if d then a else b
  {
    var o :| ev == [Decide(c, o)] && x == g[m].sons[if o then 0 else 1];
    d := o != swapped;
  }

  /** And every way through the shape is an execution. */
  lemma {:induction false} Back(g: Cfg, sh: Shape, ret: bool, z: nat, y: nat, p: seq<Event>, q: seq<Event>, j: nat)
    returns (k: nat)
    requires Holds(g, sh, ret, z) && Avoids(sh, y) && Emits(sh, p) && Rest(g, ret, z, y, q, j)
    ensures Until(g, Entry(sh), y, p + q, k)
    decreases sh
  {
    hide Until, Moves;
    match sh
    case Stmt(id, e) =>
      if ret {
        assert p + q == p;
        k := Ends(g, id, y, p);
      } else {
        k := Takes(g, id, y, p, q, z, j);
      }
    case Fork(test, a, b, end) =>
      assert HoldsTest(g, test, Entry(a), Entry(b)) && EndIf(g, end, Tail(ret, z)) && end != y;
      assert Holds(g, a, ret, end) && Holds(g, b, ret, end) && AvoidsTest(test, y) && Avoids(a, y) && Avoids(b, y);
      hide Holds, HoldsTest, Avoids, AvoidsTest, EndIf, Emits, EmitsTest, Rest, Tail;
      var p1, p2, d := EmittedParts(sh, p);
      var j1 := TakesEnd(g, end, ret, z, y, q, j);
      var j2 := Back(g, if d then a else b, ret, end, y, p2, q, j1);
      k := BackTest(g, test, Entry(a), Entry(b), y, p1, d, p2 + q, j2);
      Associative(p1, p2, q);
  }

  lemma EmittedParts(sh: Shape, ev: seq<Event>) returns (p: seq<Event>, q: seq<Event>, d: bool)
    requires sh.Fork? && Emits(sh, ev)
    ensures ev == p + q && EmitsTest(sh.test, p, d) && Emits(if d then sh.onTrue else sh.onFalse, q)
  {
    match sh
    case Fork(test, a, b, _) =>
      p, q, d :| ev == p + q && EmitsTest(test, p, d) && Emits(if d then a else b, q);
  }

  lemma EmittedTestParts(ts: TestShape, ev: seq<Event>, d: bool) returns (p: seq<Event>, q: seq<Event>, x: bool)
    requires ts.Broken? && EmitsTest(ts, ev, d)
    ensures ev == p + q && EmitsTest(ts.test, p, x) && Emits(if x then ts.first else ts.second, q)
  {
    match ts
    case Broken(test, a, b, _) =>
      p, q, x :| ev == p + q && EmitsTest(test, p, x) && Emits(if x then a else b, q);
  }

  /** Behind the ENDIF nothing is shown before z; a returning part never gets there. */
  lemma TakesEnd(g: Cfg, end: nat, ret: bool, z: nat, y: nat, q: seq<Event>, j: nat) returns (k: nat)
    requires EndIf(g, end, Tail(ret, z)) && end != y && Rest(g, ret, z, y, q, j)
    ensures Rest(g, ret, end, y, q, k)
  {
    hide Until, Moves;
    k := j;
    if !ret {
      k := Takes(g, end, y, [], q, z, j);
      assert [] + q == q;
    }
  }

  lemma Ends(g: Cfg, m: nat, y: nat, ev: seq<Event>) returns (k: nat)
    requires m != y && m in g && g[m].sons == [] && ev == Shown(g[m])
    ensures Until(g, m, y, ev, k)
  {
    k := 1;
  }

  lemma Takes(g: Cfg, m: nat, y: nat, p: seq<Event>, q: seq<Event>, x: nat, j: nat) returns (k: nat)
    requires m != y && m in g && g[m].kind != IF && g[m].kind != IFLOOP && x in g[m].sons
    requires p == Shown(g[m]) && Until(g, x, y, q, j)
    ensures Until(g, m, y, p + q, k)
  {
    k := j + 1;
    assert Moves(g, m, p, x);
  }

  lemma {:induction false} BackTest(g: Cfg, ts: TestShape, a: nat, b: nat,
                                    y: nat, p: seq<Event>, d: bool, q: seq<Event>, j: nat)
    returns (k: nat)
    requires HoldsTest(g, ts, a, b) && AvoidsTest(ts, y) && EmitsTest(ts, p, d) && Until(g, if d then a else b, y, q, j)
    ensures Until(g, TestEntry(ts), y, p + q, k)
    decreases ts
  {
    hide Until, Moves;
    match ts
    case Single(id, c, swapped) =>
      k := TakesSide(g, id, c, swapped, a, b, y, d, q, j);
    case Broken(test, s, t, end) =>
      assert HoldsTest(g, test, Entry(s), Entry(t)) && end != y && (EndIf(g, end, [a, b]) || EndIf(g, end, [b, a]));
      assert Holds(g, s, false, end) && Holds(g, t, false, end);
      assert AvoidsTest(test, y) && Avoids(s, y) && Avoids(t, y);
      hide Holds, HoldsTest, Avoids, AvoidsTest, EndIf, Emits, EmitsTest;
      var p1, p2, x := EmittedTestParts(ts, p, d);
      var j1 := TakesEither(g, end, a, b, d, y, q, j);
      var j2 := Back(g, if x then s else t, false, end, y, p2, q, j1);
      k := BackTest(g, test, Entry(s), Entry(t), y, p1, x, p2 + q, j2);
      Associative(p1, p2, q);
  }

  lemma Associative(p: seq<Event>, q: seq<Event>, r: seq<Event>)
    ensures p + (q + r) == (p + q) + r
  {
  }

  lemma TakesEither(g: Cfg, end: nat, a: nat, b: nat, d: bool, y: nat, q: seq<Event>, j: nat) returns (k: nat)
    requires (EndIf(g, end, [a, b]) || EndIf(g, end, [b, a])) && end != y && Until(g, if d then a else b, y, q, j)
    ensures Until(g, end, y, q, k)
  {
    hide Until, Moves;
    k := Takes(g, end, y, [], q, if d then a else b, j);
    assert [] + q == q;
  }

  lemma TakesSide(g: Cfg, m: nat, c: Expr, swapped: bool, a: nat, b: nat, y: nat, d: bool, q: seq<Event>, j: nat)
    returns (k: nat)
    requires HoldsTest(g, Single(m, c, swapped), a, b) && m != y && Until(g, if d then a else b, y, q, j)
    ensures Until(g, m, y, [Decide(c, d != swapped)] + q, k)
  {
    k := j + 1;
    var o := d != swapped;
    assert g[m].sons[if o then 0 else 1] == if d then a else b;
    assert Moves(g, m, [Decide(c, o)], if d then a else b);
  }

  /** The executions from the entry of a root to its ENDIF are those of its shape. */
  lemma RootExecutes(g: Cfg, sh: Shape, ret: bool, ev: seq<Event>)
    requires HoldsRoot(g, sh, ret) && sh.Fork?
    ensures Executes(g, Entry(sh), sh.end, ev) <==> Emits(sh, ev)
  {
    hide Until;
    var y := sh.end;
    if Executes(g, Entry(sh), y, ev) {
      var k: nat :| Until(g, Entry(sh), y, ev, k);
      var p1, q1, d, j1 := ForthTest(g, sh.test, Entry(sh.onTrue), Entry(sh.onFalse), y, ev, k);
      var p2, q2, j2 := Forth(g, if d then sh.onTrue else sh.onFalse, ret, y, y, q1, j1);
      if !ret { StaysThere(g, y, q2, j2); }
      assert q1 == p2 + q2 == p2;
    }
    if Emits(sh, ev) {
      var p1, p2, d := EmittedParts(sh, ev);
      Arrived(g, y);
      var j := Back(g, if d then sh.onTrue else sh.onFalse, ret, y, y, p2, [], 0);
      assert p2 + [] == p2;
      var k := BackTest(g, sh.test, Entry(sh.onTrue), Entry(sh.onFalse), y, p1, d, p2, j);
    }
  }

  lemma StaysThere(g: Cfg, y: nat, ev: seq<Event>, k: nat)
    requires Until(g, y, y, ev, k)
    ensures ev == []
  {
  }

  lemma Arrived(g: Cfg, y: nat)
    ensures Until(g, y, y, [], 0)
  {
  }

  // ----- when they are those of the expression -----

  /** The code keeps the executions of e: the conditions recorded on the way hold no conditional,
      and no side that holds one is the true side beside a false side that does not. */
  predicate Keeps(e: Expr)
    requires Splittable(e)
    decreases Burden(e)
  {
    Count(e) > 0 ==>
      (FilterSteps(e);
       var s := SplitOf(e);
       && Count(s.condition.value) == 0
       && (Count(s.onTrue) > 0 ==> Count(s.onFalse) > 0)
       && Keeps(s.onTrue) && Keeps(s.onFalse))
  }

  lemma {:induction false} KeepsIsPlain(e: Expr)
    requires Splittable(e) && Keeps(e)
    ensures ConditionsPlain(e)
    decreases Burden(e)
  {
    if Count(e) > 0 {
      FilterSteps(e);
      KeepsIsPlain(SplitOf(e).onTrue);
      KeepsIsPlain(SplitOf(e).onFalse);
    }
  }

  /** One step of the reference. */
  lemma MeaningStep(e: Expr, ev: seq<Event>)
    requires Splittable(e) && Count(e) > 0
    ensures var s := SplitOf(e);
            && s.Split? && s.condition.Some?
            && Splittable(s.condition.value) && Splittable(s.onTrue) && Splittable(s.onFalse)
            && (Meaning(e, ev) <==> exists p, q, b :: ev == p + q && Outcome(s.condition.value, p, b)
                                                      && Meaning(if b then s.onTrue else s.onFalse, q))
  {
    FilterSteps(e);
    var s := SplitOf(e);
    var c, t, f := Filter(s.condition.value).value, Filter(s.onTrue).value, Filter(s.onFalse).value;
    assert Filter(e) == Some(Choose(c, t, f));
    hide Filter, SplitOf, Splittable;
    assert Meaning(e, ev) <==> exists p, q, b :: ev == p + q && Decides(c, p, b) && Runs(if b then t else f, q);
    forall p, b ensures Decides(c, p, b) <==> Outcome(s.condition.value, p, b) {
    }
    forall q ensures (Runs(t, q) <==> Meaning(s.onTrue, q)) && (Runs(f, q) <==> Meaning(s.onFalse, q)) {
    }
  }

  /** A condition without a conditional is decided in one event. */
  lemma PlainOutcome(c: Expr, ev: seq<Event>, d: bool)
    requires Splittable(c) && Count(c) == 0
    ensures Outcome(c, ev, d) <==> ev == [Decide(c, d)]
  {
  }

  lemma PlainStep(e: Expr, ev: seq<Event>, b: bool, q: seq<Event>)
    requires Splittable(e) && Count(e) > 0 && SplitOf(e).Split? && SplitOf(e).condition.Some?
    requires Count(SplitOf(e).condition.value) == 0 && Splittable(SplitOf(e).onTrue) && Splittable(SplitOf(e).onFalse)
    requires ev == [Decide(SplitOf(e).condition.value, b)] + q
    ensures Meaning(e, ev) <==> Meaning(if b then SplitOf(e).onTrue else SplitOf(e).onFalse, q)
  {
    MeaningStep(e, ev);
    var s := SplitOf(e);
    hide SplitOf, Splittable, Meaning;
    if p, r, d :| ev == p + r && Outcome(s.condition.value, p, d) && Meaning(if d then s.onTrue else s.onFalse, r) {
      assert p == [Decide(s.condition.value, d)];
      assert ev[0] == p[0] && ev[1..] == r && ev[1..] == q;
    }
    assert Outcome(s.condition.value, [Decide(s.condition.value, b)], b);
  }

  lemma {:induction false} KeptEmits(sh: Shape, e: Expr, ev: seq<Event>)
    requires Splittable(e) && Made(sh, e) && Complete(sh) && Keeps(e) && InOrder(sh)
    ensures Emits(sh, ev) <==> Meaning(e, ev)
    decreases sh
  {
    match sh
    case Stmt(_, _) =>
    case Fork(test, a, b, _) =>
      FilterSteps(e);
      var s := SplitOf(e);
      KeptOrder(sh, e);
      KeptFork(sh, e, ev);
  }

  /** Plain conditions and no lone true side: no IF is swapped in the end. */
  lemma KeptOrder(sh: Shape, e: Expr)
    requires Splittable(e) && Made(sh, e) && Complete(sh) && Keeps(e) && InOrder(sh) && sh.Fork?
    ensures sh.test == Single(sh.test.id, SplitOf(e).condition.value, false)
  {
    FilterSteps(e);
  }

  lemma {:induction false} KeptFork(sh: Shape, e: Expr, ev: seq<Event>)
    requires Splittable(e) && Made(sh, e) && Complete(sh) && Keeps(e) && InOrder(sh) && sh.Fork?
    requires sh.test == Single(sh.test.id, SplitOf(e).condition.value, false)
    ensures Emits(sh, ev) <==> Meaning(e, ev)
    decreases sh, 0
  {
    FilterSteps(e);
    var s := SplitOf(e);
    var c := s.condition.value;
    hide SplitOf, Splittable, Meaning, Outcome;
    if Emits(sh, ev) {
      var p, q, d := EmittedParts(sh, ev);
      KeptEmits(if d then sh.onTrue else sh.onFalse, if d then s.onTrue else s.onFalse, q);
      PlainStep(e, ev, d, q);
    }
    if Meaning(e, ev) {
      MeaningStep(e, ev);
      var p, q, d :| ev == p + q && Outcome(c, p, d) && Meaning(if d then s.onTrue else s.onFalse, q);
      PlainOutcome(c, p, d);
      KeptEmits(if d then sh.onTrue else sh.onFalse, if d then s.onTrue else s.onFalse, q);
      assert EmitsTest(sh.test, p, d);
      assert Emits(if d then sh.onTrue else sh.onFalse, q);
    }
  }

  // ----- and when they are not -----

  function Statements(ev: seq<Event>): nat {
    if ev == [] then 0 else Statements(ev[..|ev| - 1]) + if ev[|ev| - 1].Do? then 1 else 0
  }

  lemma {:induction false} StatementsAdd(p: seq<Event>, q: seq<Event>)
    ensures Statements(p + q) == Statements(p) + Statements(q)
  {
    if q == [] {
      assert p + q == p;
    } else {
      assert (p + q)[..|p + q| - 1] == p + q[..|q| - 1];
      StatementsAdd(p, q[..|q| - 1]);
    }
  }

  lemma OneEvent(x: Event)
    ensures Statements([x]) == if x.Do? then 1 else 0
  {
    assert [x][..0] == [];
  }

  /** An execution of an expression executes one statement, a decision none. */
  lemma {:induction false} OneStatement(t: Tree, ev: seq<Event>)
    requires Runs(t, ev)
    ensures Statements(ev) == 1 && |ev| >= 1 && (t.Choose? ==> |ev| >= 2)
    decreases t
  {
    match t
    case Done(e) => OneEvent(Do(e));
    case Choose(c, x, y) =>
      var p, q, b :| ev == p + q && Decides(c, p, b) && Runs(if b then x else y, q);
      NoStatement(c, p, b);
      OneStatement(if b then x else y, q);
      StatementsAdd(p, q);
  }

  lemma {:induction false} NoStatement(t: Tree, ev: seq<Event>, b: bool)
    requires Decides(t, ev, b)
    ensures Statements(ev) == 0 && |ev| >= 1
    decreases t
  {
    match t
    case Done(e) => OneEvent(Decide(e, b));
    case Choose(c, x, y) =>
      var p, q, d :| ev == p + q && Decides(c, p, d) && Decides(if d then x else y, q, b);
      NoStatement(c, p, d);
      NoStatement(if d then x else y, q, b);
      StatementsAdd(p, q);
  }

  /** Every shape has an execution, with at least one statement. */
  lemma {:induction false} SomeEmission(sh: Shape) returns (ev: seq<Event>)
    ensures Emits(sh, ev) && Statements(ev) >= 1
    decreases sh
  {
    match sh
    case Stmt(_, e) =>
      ev := [Do(e)];
      OneEvent(Do(e));
    case Fork(test, a, _, _) =>
      var p := SomeTest(test, true);
      var q := SomeEmission(a);
      ev := p + q;
      StatementsAdd(p, q);
  }

  /** Every test can come out either way, and if it has been split it executes a statement. */
  lemma {:induction false} SomeTest(ts: TestShape, d: bool) returns (ev: seq<Event>)
    ensures EmitsTest(ts, ev, d) && (ts.Broken? ==> Statements(ev) >= 1)
    decreases ts
  {
    match ts
    case Single(_, c, swapped) => ev := [Decide(c, d != swapped)];
    case Broken(test, a, _, _) =>
      var p := SomeTest(test, true);
      var q := SomeEmission(a);
      ev := p + q;
      StatementsAdd(p, q);
  }

  /** A test that stayed whole holds no conditional. */
  lemma WholeIsPlain(ts: TestShape, c: Expr)
    requires MadeTest(ts, c) && CompleteTest(ts)
    ensures ts.Broken? <==> Count(c) > 0
  {
  }

  /** A condition that holds a conditional is executed as a statement, before another one. */
  lemma {:induction false} TwoStatements(sh: Shape, e: Expr) returns (ev: seq<Event>)
    requires Splittable(e) && Made(sh, e) && Complete(sh) && !ConditionsPlain(e)
    ensures Emits(sh, ev) && Statements(ev) >= 2
    decreases sh
  {
    FilterSteps(e);
    var s := SplitOf(e);
    match sh
    case Fork(test, a, b, _) =>
      WholeIsPlain(test, s.condition.value);
      var d := Count(s.condition.value) > 0 || !ConditionsPlain(s.onTrue);
      var p := SomeTest(test, d);
      var q;
      if Count(s.condition.value) > 0 {
        q := SomeEmission(a);
      } else if d {
        q := TwoStatements(a, s.onTrue);
      } else {
        q := TwoStatements(b, s.onFalse);
      }
      ev := p + q;
      StatementsAdd(p, q);
  }

  /** The outcomes p of plain conditions lead from e to the expression f inside it. */
  ghost predicate LeadsTo(e: Expr, p: seq<Event>, f: Expr)
    requires Splittable(e)
    decreases Burden(e)
  {
    || (p == [] && f == e)
    || (Count(e) > 0 &&
        (FilterSteps(e);
         var s := SplitOf(e);
         exists d, q :: p == [Decide(s.condition.value, d)] + q && LeadsTo(if d then s.onTrue else s.onFalse, q, f)))
  }

  /** The true side holds a conditional and the false side does not. */
  predicate LoneTrueSide(e: Expr) {
    && SplitOf(e).Split? && SplitOf(e).condition.Some?
    && Count(SplitOf(e).onTrue) > 0 && Count(SplitOf(e).onFalse) == 0
  }

  /** With plain conditions, the true outcome that should lead to a lone true side leads to the
      false side next to it, which no execution of the expression does. */
  lemma {:induction false} WrongSide(sh: Shape, e: Expr)
    returns (ev: seq<Event>, p: seq<Event>, f: Expr)
    requires Splittable(e) && Made(sh, e) && Complete(sh) && ConditionsPlain(e) && InOrder(sh) && !Keeps(e)
    ensures Emits(sh, ev) && !Meaning(e, ev)
    ensures LeadsTo(e, p, f) && LoneTrueSide(f)
    ensures ev == p + [Decide(SplitOf(f).condition.value, true), Do(SplitOf(f).onFalse)]
    decreases sh
  {
    FilterSteps(e);
    var s := SplitOf(e);
    hide LeadsTo;
    match sh
    case Fork(test, a, b, _) =>
      var c := s.condition.value;
      StmtIffPlain(a, s.onTrue);
      StmtIffPlain(b, s.onFalse);
      if Count(s.onTrue) > 0 && Count(s.onFalse) == 0 {
        p, f := [], e;
        LeadsHere(e);
        ev := [Decide(c, true)] + [Do(s.onFalse)];
        assert p + [Decide(c, true), Do(s.onFalse)] == ev;
        assert EmitsTest(test, [Decide(c, true)], false) && Emits(b, [Do(s.onFalse)]);
        PlainStep(e, ev, true, [Do(s.onFalse)]);
        TooShort(s.onTrue, s.onFalse);
      } else {
        var d := !Keeps(s.onTrue);
        var rest, q;
        if d { rest, q, f := WrongSide(a, s.onTrue); } else { rest, q, f := WrongSide(b, s.onFalse); }
        ev, p := [Decide(c, d)] + rest, [Decide(c, d)] + q;
        LeadsOn(e, d, q, f);
        Associative([Decide(c, d)], q, [Decide(SplitOf(f).condition.value, true), Do(SplitOf(f).onFalse)]);
        assert EmitsTest(test, [Decide(c, d)], d);
        PlainStep(e, ev, d, rest);
      }
  }

  lemma LeadsHere(e: Expr)
    requires Splittable(e)
    ensures LeadsTo(e, [], e)
  {
  }

  lemma LeadsOn(e: Expr, d: bool, q: seq<Event>, f: Expr)
    requires Splittable(e) && Count(e) > 0 && SplitOf(e).Split? && SplitOf(e).condition.Some?
    requires Splittable(SplitOf(e).onTrue) && Splittable(SplitOf(e).onFalse)
    requires LeadsTo(if d then SplitOf(e).onTrue else SplitOf(e).onFalse, q, f)
    ensures LeadsTo(e, [Decide(SplitOf(e).condition.value, d)] + q, f)
  {
  }

  lemma StmtIffPlain(sh: Shape, e: Expr)
    requires Made(sh, e) && Complete(sh)
    ensures sh.Stmt? <==> Count(e) == 0
    ensures sh.Stmt? ==> Emits(sh, [Do(e)])
  {
  }

  lemma TooShort(e: Expr, f: Expr)
    requires Splittable(e) && Count(e) > 0
    ensures !Meaning(e, [Do(f)])
  {
    MeaningStep(e, [Do(f)]);
    if Meaning(e, [Do(f)]) { OneStatement(Filter(e).value, [Do(f)]); }
  }

  /** The shape's executions are those of the expression exactly when the code keeps them. */
  lemma ShapeExact(sh: Shape, e: Expr)
    requires Splittable(e) && Made(sh, e) && Complete(sh) && (ConditionsPlain(e) ==> InOrder(sh))
    ensures (forall ev :: Emits(sh, ev) <==> Meaning(e, ev)) <==> Keeps(e)
  {
    hide *;
    if Keeps(e) {
      KeepsIsPlain(e);
      forall ev ensures Emits(sh, ev) <==> Meaning(e, ev) { KeptEmits(sh, e, ev); }
    } else if ConditionsPlain(e) {
      var ev, p, f := WrongSide(sh, e);
    } else {
      var ev := TwoStatements(sh, e);
      MeansOneStatement(e, ev);
    }
  }

  lemma MeansOneStatement(e: Expr, ev: seq<Event>)
    requires Splittable(e)
    ensures Meaning(e, ev) ==> Statements(ev) == 1
  {
    if Meaning(e, ev) { OneStatement(Filter(e).value, ev); }
  }
}
