/** Which executions a split control-flow graph has, compared with the expression that was split. */
module TernaryPaths {
  import opened Collections
  import opened ExpressionSyntax
  import opened TernaryCfg
  import opened TernarySpec
  import opened TernaryTrees

  /** What an execution shows: a condition and how it came out, or a statement. */
  datatype Event = Decide(cond: Expr, outcome: bool) | Do(e: Expr)

  // ----- executions of an expression -----

  /** An execution of the decision tree, the reference: conditions, then one statement. */
  ghost predicate Runs(t: Tree, ev: seq<Event>) {
    match t
    case Done(e) => ev == [Do(e)]
    case Choose(c, x, y) => exists p, q, b :: ev == p + q && Decides(c, p, b) && Runs(if b then x else y, q)
  }

  /** A decision tree used as a condition: its last leaf is decided, too. */
  ghost predicate Decides(t: Tree, ev: seq<Event>, b: bool) {
    match t
    case Done(e) => ev == [Decide(e, b)]
    case Choose(c, x, y) => exists p, q, d :: ev == p + q && Decides(c, p, d) && Decides(if d then x else y, q, b)
  }

  ghost predicate Meaning(e: Expr, ev: seq<Event>)
    requires Splittable(e)
  {
    Filter(e).Some? && Runs(Filter(e).value, ev)
  }

  ghost predicate Outcome(e: Expr, ev: seq<Event>, b: bool)
    requires Splittable(e)
  {
    Filter(e).Some? && Decides(Filter(e).value, ev, b)
  }

  // ----- executions of a graph -----

  /** Node m shows ev and control goes on to x. The sons of an IF are taken as true and false. */
  ghost predicate Moves(g: Cfg, m: nat, ev: seq<Event>, x: nat) {
    && m in g
    && if g[m].kind == IF || g[m].kind == IFLOOP then
         && g[m].expr.Some? && |g[m].sons| == 2
         && exists b :: ev == [Decide(g[m].expr.value, b)] && x == g[m].sons[if b then 0 else 1]
       else ev == Shown(g[m]) && x in g[m].sons
  }

  function Shown(n: Node): seq<Event> {
    if n.expr.Some? then [Do(n.expr.value)] else []
  }

  /** From m, ev is shown until control first comes to y, or ends, within k steps. */
  ghost predicate Until(g: Cfg, m: nat, y: nat, ev: seq<Event>, k: nat)
    decreases k
  {
    if m == y then ev == []
    else
      && k > 0 && m in g
      && (|| (g[m].sons == [] && ev == Shown(g[m]))
          || exists p, q, x :: ev == p + q && Moves(g, m, p, x) && Until(g, x, y, q, k - 1))
  }

  ghost predicate Executes(g: Cfg, m: nat, y: nat, ev: seq<Event>) {
    exists k: nat :: Until(g, m, y, ev, k)
  }

  // ----- the shape that splitting gives to a node -----

  /** The nodes that have come out of one statement: the statement itself, or a test with two
      such parts that meet in an ENDIF. */
  datatype Shape = Stmt(id: nat, e: Expr) | Fork(test: TestShape, onTrue: Shape, onFalse: Shape, end: nat)

  /** A test is an IF node, swapped or not; or what splitting that IF node has made of it. */
  datatype TestShape =
    | Single(id: nat, c: Expr, swapped: bool)
    | Broken(test: TestShape, first: Shape, second: Shape, end: nat)

  function Entry(sh: Shape): nat {
    match sh
    case Stmt(id, _) => id
    case Fork(test, _, _, _) => TestEntry(test)
  }

  function TestEntry(ts: TestShape): nat {
    match ts
    case Single(id, _, _) => id
    case Broken(test, _, _, _) => TestEntry(test)
  }

  function Tail(ret: bool, y: nat): seq<nat> { if ret then [] else [y] }

  ghost predicate EndIf(g: Cfg, n: nat, sons: seq<nat>) {
    n in g && g[n] == Node(ENDIF, None, sons)
  }

  /** The graph holds the shape, and behind it comes y; a returning statement ends. */
  ghost predicate Holds(g: Cfg, sh: Shape, ret: bool, y: nat) {
    match sh
    case Stmt(id, e) => id in g && g[id] == Node(if ret then RETURN else EXPRESSION, Some(e), Tail(ret, y))
    case Fork(test, a, b, end) =>
      && HoldsTest(g, test, Entry(a), Entry(b)) && Entry(a) != Entry(b)
      && Holds(g, a, ret, end) && Holds(g, b, ret, end) && EndIf(g, end, Tail(ret, y))
  }

  ghost predicate HoldsTest(g: Cfg, ts: TestShape, a: nat, b: nat) {
    match ts
    case Single(id, c, swapped) => id in g && g[id] == Node(IF, Some(c), if swapped then [b, a] else [a, b])
    case Broken(test, s, t, end) =>
      && HoldsTest(g, test, Entry(s), Entry(t)) && Entry(s) != Entry(t)
      && Holds(g, s, false, end) && Holds(g, t, false, end)
      && (EndIf(g, end, [a, b]) || EndIf(g, end, [b, a]))
  }

  /** The shape of a node of the original graph; its sons, and then its ENDIF's, are its own. */
  ghost predicate HoldsRoot(g: Cfg, sh: Shape, ret: bool) {
    match sh
    case Stmt(id, e) => id in g && g[id].expr == Some(e) && (g[id].kind == RETURN <==> ret)
    case Fork(test, a, b, end) =>
      && HoldsTest(g, test, Entry(a), Entry(b)) && Entry(a) != Entry(b)
      && Holds(g, a, ret, end) && Holds(g, b, ret, end)
      && end in g && g[end].kind == ENDIF && g[end].expr.None?
      && AvoidsTest(test, end) && Avoids(a, end) && Avoids(b, end)
  }

  predicate Avoids(sh: Shape, y: nat) {
    match sh
    case Stmt(id, _) => id != y
    case Fork(test, a, b, end) => AvoidsTest(test, y) && Avoids(a, y) && Avoids(b, y) && end != y
  }

  predicate AvoidsTest(ts: TestShape, y: nat) {
    match ts
    case Single(id, _, _) => id != y
    case Broken(test, s, t, end) => AvoidsTest(test, y) && Avoids(s, y) && Avoids(t, y) && end != y
  }

  /** The shape came out of splitting e, as far as that has gone. */
  ghost predicate Made(sh: Shape, e: Expr) {
    match sh
    case Stmt(_, x) => x == e
    case Fork(test, a, b, _) =>
      var s := SplitOf(e);
      Count(e) > 0 && s.Split? && s.condition.Some?
      && MadeTest(test, s.condition.value) && Made(a, s.onTrue) && Made(b, s.onFalse)
  }

  ghost predicate MadeTest(ts: TestShape, c: Expr) {
    match ts
    case Single(_, x, _) => x == c
    case Broken(test, a, b, _) =>
      var s := SplitOf(c);
      Count(c) > 0 && s.Split? && s.condition.Some?
      && MadeTest(test, s.condition.value) && Made(a, s.onTrue) && Made(b, s.onFalse)
  }

  predicate Complete(sh: Shape) {
    match sh
    case Stmt(_, e) => Count(e) == 0
    case Fork(test, a, b, _) => CompleteTest(test) && Complete(a) && Complete(b)
  }

  predicate CompleteTest(ts: TestShape) {
    match ts
    case Single(_, c, _) => Count(c) == 0
    case Broken(test, a, b, _) => CompleteTest(test) && Complete(a) && Complete(b)
  }

  // ----- what a split makes of a shape -----

  /** The shape after node n has been split, with the new nodes numbered from next. */
  function Recut(sh: Shape, next: nat, n: nat): Shape {
    match sh
    case Stmt(id, e) =>
      var s := SplitOf(e);
      if id == n && s.Split? && s.condition.Some?
      then Fork(Single(next, s.condition.value, false), Stmt(next + 1, s.onTrue), Stmt(next + 2, s.onFalse), next + 3)
      else sh
    case Fork(test, a, b, end) =>
      Fork(RecutTest(test, Entry(a), Entry(b), next, n), Recut(a, next, n), Recut(b, next, n), end)
  }

  /** An IF whose first son is replaced gets it back as its second. */
  function RecutTest(ts: TestShape, a: nat, b: nat, next: nat, n: nat): TestShape {
    match ts
    case Single(id, c, swapped) =>
      var s := SplitOf(c);
      if id == n && s.Split? && s.condition.Some?
      then Broken(Single(next, s.condition.value, false), Stmt(next + 1, s.onTrue), Stmt(next + 2, s.onFalse), next + 3)
      else Single(id, c, if (if swapped then b else a) == n then !swapped else swapped)
    case Broken(test, s, t, end) =>
      Broken(RecutTest(test, Entry(s), Entry(t), next, n), Recut(s, next, n), Recut(t, next, n), end)
  }

  /** The node to be split has this expression. */
  ghost predicate Splits(g: Cfg, next: nat, n: nat) {
    CfgOk(g, next) && Conditional(g, n)
  }

  lemma {:induction false} RecutHolds(g: Cfg, next: nat, n: nat, sh: Shape, ret: bool, y: nat)
    requires Splits(g, next, n) && Holds(g, sh, ret, y)
    ensures Entry(Recut(sh, next, n)) == Replaced(Entry(sh), n, next)
    ensures Holds(CutAt(g, next, n), Recut(sh, next, n), ret, Replaced(y, n, next))
    decreases sh
  {
    CutParts(g, next, n);
    match sh
    case Stmt(id, e) =>
      RedirectedOne(y, n, next);
      StmtRecut(g, next, n, id, e, ret, y);
    case Fork(test, a, b, end) =>
      RecutTestHolds(g, next, n, test, Entry(a), Entry(b));
      RecutHolds(g, next, n, a, ret, end);
      RecutHolds(g, next, n, b, ret, end);
      EndIfRecut(g, next, n, end, ret, y);
  }

  /** What stands in the place of the node that has been split. */
  lemma PartsHold(g: Cfg, next: nat, n: nat, ret: bool)
    requires Splits(g, next, n) && (g[n].kind == RETURN <==> ret)
    ensures var (h, s) := (CutAt(g, next, n), SplitOf(g[n].expr.value));
            && s.Split? && s.condition.Some?
            && HoldsTest(h, Single(next, s.condition.value, false), next + 1, next + 2)
            && Holds(h, Stmt(next + 1, s.onTrue), ret, next + 3) && Holds(h, Stmt(next + 2, s.onFalse), ret, next + 3)
            && EndIf(h, next + 3, Redirected(g[n].sons, n, next))
  {
    CutParts(g, next, n);
    hide Redirected, SplitOf, CfgOk;
    var h, s := CutAt(g, next, n), SplitOf(g[n].expr.value);
    assert PartKind(g[n].kind) == if ret then RETURN else EXPRESSION;
    assert PartSons(g[n].kind, next + 3) == Tail(ret, next + 3);
    assert h[next + 1] == Node(PartKind(g[n].kind), Some(s.onTrue), PartSons(g[n].kind, next + 3));
    assert h[next + 2] == Node(PartKind(g[n].kind), Some(s.onFalse), PartSons(g[n].kind, next + 3));
  }

  lemma StmtRecut(g: Cfg, next: nat, n: nat, id: nat, e: Expr, ret: bool, y: nat)
    requires Splits(g, next, n) && Holds(g, Stmt(id, e), ret, y)
    ensures var sh := Recut(Stmt(id, e), next, n);
            Entry(sh) == Replaced(id, n, next) && Holds(CutAt(g, next, n), sh, ret, Replaced(y, n, next))
  {
    if id == n { StmtSplit(g, next, n, e, ret, y); } else { StmtKept(g, next, n, id, e, ret, y); }
  }

  /** The statement is itself the node that is split. */
  lemma StmtSplit(g: Cfg, next: nat, n: nat, e: Expr, ret: bool, y: nat)
    requires Splits(g, next, n) && Holds(g, Stmt(n, e), ret, y)
    ensures var sh := Recut(Stmt(n, e), next, n);
            Entry(sh) == next && Holds(CutAt(g, next, n), sh, ret, Replaced(y, n, next))
  {
    RedirectedOne(y, n, next);
    PartsHold(g, next, n, ret);
    assert g[n].expr.value == e && g[n].sons == Tail(ret, y);
    hide Redirected, SplitOf, CfgOk, CutAt, HoldsTest, Conditional;
    assert Recut(Stmt(n, e), next, n).Fork?;
  }

  lemma StmtKept(g: Cfg, next: nat, n: nat, id: nat, e: Expr, ret: bool, y: nat)
    requires Splits(g, next, n) && Holds(g, Stmt(id, e), ret, y) && id != n
    ensures Holds(CutAt(g, next, n), Recut(Stmt(id, e), next, n), ret, Replaced(y, n, next))
  {
    CutParts(g, next, n);
    RedirectedOne(y, n, next);
    hide Redirected, SplitOf, CfgOk;
  }

  lemma EndIfRecut(g: Cfg, next: nat, n: nat, end: nat, ret: bool, y: nat)
    requires Splits(g, next, n) && EndIf(g, end, Tail(ret, y))
    ensures EndIf(CutAt(g, next, n), end, Tail(ret, Replaced(y, n, next)))
  {
    CutParts(g, next, n);
    RedirectedOne(y, n, next);
    hide Redirected, SplitOf, CfgOk;
  }

  lemma {:induction false} RecutTestHolds(g: Cfg, next: nat, n: nat, ts: TestShape, a: nat, b: nat)
    requires Splits(g, next, n) && HoldsTest(g, ts, a, b) && a != b
    ensures TestEntry(RecutTest(ts, a, b, next, n)) == Replaced(TestEntry(ts), n, next)
    ensures HoldsTest(CutAt(g, next, n), RecutTest(ts, a, b, next, n), Replaced(a, n, next), Replaced(b, n, next))
    ensures Replaced(a, n, next) != Replaced(b, n, next)
    decreases ts
  {
    match ts
    case Single(id, c, swapped) =>
      SingleRecut(g, next, n, id, c, swapped, a, b);
    case Broken(test, s, t, end) =>
      TwoSonsBelow(g, next, n, end, a, b);
      RecutTestHolds(g, next, n, test, Entry(s), Entry(t));
      RecutHolds(g, next, n, s, false, end);
      RecutHolds(g, next, n, t, false, end);
  }

  /** An ENDIF with two sons keeps two, in some order. */
  lemma TwoSonsBelow(g: Cfg, next: nat, n: nat, end: nat, a: nat, b: nat)
    requires Splits(g, next, n) && a != b && (EndIf(g, end, [a, b]) || EndIf(g, end, [b, a]))
    ensures var (h, a', b') := (CutAt(g, next, n), Replaced(a, n, next), Replaced(b, n, next));
            a' != b' && Replaced(end, n, next) == end && (EndIf(h, end, [a', b']) || EndIf(h, end, [b', a']))
  {
    CutParts(g, next, n);
    RedirectedTwo(a, b, n, next);
    RedirectedTwo(b, a, n, next);
    assert g[end].sons[0] < next && g[end].sons[1] < next;
    hide Redirected, SplitOf, CfgOk;
  }

  lemma SingleRecut(g: Cfg, next: nat, n: nat, id: nat, c: Expr, swapped: bool, a: nat, b: nat)
    requires Splits(g, next, n) && HoldsTest(g, Single(id, c, swapped), a, b) && a != b
    ensures var ts := RecutTest(Single(id, c, swapped), a, b, next, n);
            && TestEntry(ts) == Replaced(id, n, next)
            && HoldsTest(CutAt(g, next, n), ts, Replaced(a, n, next), Replaced(b, n, next))
    ensures Replaced(a, n, next) != Replaced(b, n, next)
  {
    assert g[id].sons[0] < next && g[id].sons[1] < next;
    if id == n { SingleSplit(g, next, n, c, swapped, a, b); } else { SingleKept(g, next, n, id, c, swapped, a, b); }
  }

  /** The IF node is itself the one that is split. */
  lemma SingleSplit(g: Cfg, next: nat, n: nat, c: Expr, swapped: bool, a: nat, b: nat)
    requires Splits(g, next, n) && HoldsTest(g, Single(n, c, swapped), a, b) && a != b
    ensures var ts := RecutTest(Single(n, c, swapped), a, b, next, n);
            && TestEntry(ts) == next
            && HoldsTest(CutAt(g, next, n), ts, Replaced(a, n, next), Replaced(b, n, next))
  {
    PartsHold(g, next, n, false);
    EndIfSplit(g, next, n, c, swapped, a, b);
    SingleForm(g, next, n, c, swapped, a, b);
    hide Redirected, SplitOf, CfgOk, CutAt, Conditional, EndIf;
    var s := SplitOf(c);
    var test, x, y := Single(next, s.condition.value, false), Stmt(next + 1, s.onTrue), Stmt(next + 2, s.onFalse);
    BrokenHolds(CutAt(g, next, n), test, x, y, next + 3, Replaced(a, n, next), Replaced(b, n, next));
  }

  /** The new ENDIF has the two sons of the IF, in some order. */
  lemma EndIfSplit(g: Cfg, next: nat, n: nat, c: Expr, swapped: bool, a: nat, b: nat)
    requires Splits(g, next, n) && HoldsTest(g, Single(n, c, swapped), a, b) && a != b
    ensures var (h, a', b') := (CutAt(g, next, n), Replaced(a, n, next), Replaced(b, n, next));
            EndIf(h, next + 3, [a', b']) || EndIf(h, next + 3, [b', a'])
  {
    PartsHold(g, next, n, false);
    RedirectedTwo(a, b, n, next);
    RedirectedTwo(b, a, n, next);
    hide Redirected, SplitOf, CfgOk, CutAt, Conditional;
  }

  lemma SingleForm(g: Cfg, next: nat, n: nat, c: Expr, swapped: bool, a: nat, b: nat)
    requires Splits(g, next, n) && HoldsTest(g, Single(n, c, swapped), a, b)
    ensures var s := SplitOf(c);
            && g[n].expr.value == c && s.Split? && s.condition.Some?
            && RecutTest(Single(n, c, swapped), a, b, next, n)
               == Broken(Single(next, s.condition.value, false), Stmt(next + 1, s.onTrue), Stmt(next + 2, s.onFalse),
                         next + 3)
  {
    CutParts(g, next, n);
    hide SplitOf, CfgOk, CutAt, Conditional;
  }

  lemma BrokenHolds(g: Cfg, test: TestShape, s: Shape, t: Shape, end: nat, a: nat, b: nat)
    requires HoldsTest(g, test, Entry(s), Entry(t)) && Entry(s) != Entry(t)
    requires Holds(g, s, false, end) && Holds(g, t, false, end)
    requires EndIf(g, end, [a, b]) || EndIf(g, end, [b, a])
    ensures HoldsTest(g, Broken(test, s, t, end), a, b)
  {
  }

  lemma SingleKept(g: Cfg, next: nat, n: nat, id: nat, c: Expr, swapped: bool, a: nat, b: nat)
    requires Splits(g, next, n) && HoldsTest(g, Single(id, c, swapped), a, b) && a != b && id != n
    ensures HoldsTest(CutAt(g, next, n), RecutTest(Single(id, c, swapped), a, b, next, n),
                      Replaced(a, n, next), Replaced(b, n, next))
  {
    CutParts(g, next, n);
    RedirectedTwo(a, b, n, next);
    RedirectedTwo(b, a, n, next);
    hide Redirected, SplitOf, CfgOk;
  }

  lemma {:induction false} RecutAvoids(sh: Shape, next: nat, n: nat, y: nat)
    requires Avoids(sh, y) && y < next
    ensures Avoids(Recut(sh, next, n), y)
    decreases sh
  {
    match sh
    case Stmt(_, _) =>
    case Fork(test, a, b, _) =>
      RecutTestAvoids(test, Entry(a), Entry(b), next, n, y);
      RecutAvoids(a, next, n, y);
      RecutAvoids(b, next, n, y);
  }

  lemma {:induction false} RecutTestAvoids(ts: TestShape, a: nat, b: nat, next: nat, n: nat, y: nat)
    requires AvoidsTest(ts, y) && y < next
    ensures AvoidsTest(RecutTest(ts, a, b, next, n), y)
    decreases ts
  {
    match ts
    case Single(_, _, _) =>
    case Broken(test, s, t, _) =>
      RecutTestAvoids(test, Entry(s), Entry(t), next, n, y);
      RecutAvoids(s, next, n, y);
      RecutAvoids(t, next, n, y);
  }

  lemma {:induction false} RecutMade(sh: Shape, e: Expr, next: nat, n: nat)
    requires Made(sh, e) && Splittable(e) && (forall x :: sh == Stmt(n, x) ==> Count(x) > 0)
    requires NoPlain(sh, n)
    ensures Made(Recut(sh, next, n), e)
    decreases sh
  {
    match sh
    case Stmt(id, x) =>
    case Fork(test, a, b, _) =>
      FilterSteps(e);
      RecutTestMade(test, SplitOf(e).condition.value, Entry(a), Entry(b), next, n);
      RecutMade(a, SplitOf(e).onTrue, next, n);
      RecutMade(b, SplitOf(e).onFalse, next, n);
  }

  /** Node n, if it is part of the shape, has a conditional. */
  predicate NoPlain(sh: Shape, n: nat) {
    match sh
    case Stmt(id, e) => id == n ==> Count(e) > 0
    case Fork(test, a, b, _) => NoPlainTest(test, n) && NoPlain(a, n) && NoPlain(b, n)
  }

  predicate NoPlainTest(ts: TestShape, n: nat) {
    match ts
    case Single(id, c, _) => id == n ==> Count(c) > 0
    case Broken(test, a, b, _) => NoPlainTest(test, n) && NoPlain(a, n) && NoPlain(b, n)
  }

  lemma {:induction false} RecutTestMade(ts: TestShape, c: Expr, a: nat, b: nat, next: nat, n: nat)
    requires MadeTest(ts, c) && Splittable(c) && NoPlainTest(ts, n)
    ensures MadeTest(RecutTest(ts, a, b, next, n), c)
    decreases ts
  {
    match ts
    case Single(_, _, _) =>
    case Broken(test, s, t, _) =>
      FilterSteps(c);
      RecutTestMade(test, SplitOf(c).condition.value, Entry(s), Entry(t), next, n);
      RecutMade(s, SplitOf(c).onTrue, next, n);
      RecutMade(t, SplitOf(c).onFalse, next, n);
  }

  lemma {:induction false} HeldIsNotPlain(g: Cfg, next: nat, n: nat, sh: Shape, ret: bool, y: nat)
    requires Splits(g, next, n) && Holds(g, sh, ret, y)
    ensures NoPlain(sh, n)
    decreases sh
  {
    match sh
    case Stmt(_, _) =>
    case Fork(test, a, b, end) =>
      HeldTestIsNotPlain(g, next, n, test, Entry(a), Entry(b));
      HeldIsNotPlain(g, next, n, a, ret, end);
      HeldIsNotPlain(g, next, n, b, ret, end);
  }

  lemma {:induction false} HeldTestIsNotPlain(g: Cfg, next: nat, n: nat, ts: TestShape, a: nat, b: nat)
    requires Splits(g, next, n) && HoldsTest(g, ts, a, b)
    ensures NoPlainTest(ts, n)
    decreases ts
  {
    match ts
    case Single(_, _, _) =>
    case Broken(test, s, t, end) =>
      HeldTestIsNotPlain(g, next, n, test, Entry(s), Entry(t));
      HeldIsNotPlain(g, next, n, s, false, end);
      HeldIsNotPlain(g, next, n, t, false, end);
  }

  // ----- the order of an IF's sons -----

  /** Every condition recorded on the way holds no conditional. */
  predicate ConditionsPlain(e: Expr)
    requires Splittable(e)
    decreases Burden(e)
  {
    Count(e) > 0 ==>
      (FilterSteps(e);
       var s := SplitOf(e);
       Count(s.condition.value) == 0 && ConditionsPlain(s.onTrue) && ConditionsPlain(s.onFalse))
  }

  /** As long as conditions are plain, an IF is swapped just while its true side has been split
      and its false side has not; the true side is split first. */
  predicate InOrder(sh: Shape) {
    match sh
    case Stmt(_, _) => true
    case Fork(test, a, b, _) => PairInOrder(test, a, b) && InOrder(a) && InOrder(b)
  }

  predicate PairInOrder(test: TestShape, a: Shape, b: Shape) {
    && test.Single? && Count(test.c) == 0
    && test.swapped == (a.Fork? && b.Stmt?)
    && (a.Stmt? && b.Fork? ==> Count(a.e) == 0)
    && (a.Stmt? && b.Stmt? ==> a.id < b.id)
  }

  ghost predicate First(g: Cfg, n: nat) {
    forall m :: 0 <= m < n ==> !Conditional(g, m)
  }

  /** An IF of the shape with a plain condition is not the node to be split. */
  predicate Untouched(sh: Shape, n: nat) {
    sh.Fork? ==> sh.test.Single? && sh.test.id != n
  }

  lemma {:induction false} RecutInOrder(g: Cfg, next: nat, n: nat, sh: Shape, e: Expr, ret: bool, y: nat)
    requires Splits(g, next, n) && First(g, n) && Holds(g, sh, ret, y) && InOrder(sh)
    requires Made(sh, e) && Splittable(e) && ConditionsPlain(e)
    ensures InOrder(Recut(sh, next, n)) && Untouched(sh, n)
    decreases sh
  {
    match sh
    case Stmt(id, x) =>
      if id == n { FilterSteps(e); }
    case Fork(test, a, b, end) =>
      FilterSteps(e);
      RecutInOrder(g, next, n, a, SplitOf(e).onTrue, ret, end);
      RecutInOrder(g, next, n, b, SplitOf(e).onFalse, ret, end);
      RecutPair(g, next, n, test, a, b, ret, end);
  }

  /** One IF with a plain condition and its two sides. */
  lemma RecutPair(g: Cfg, next: nat, n: nat, test: TestShape, a: Shape, b: Shape, ret: bool, end: nat)
    requires Splits(g, next, n) && First(g, n)
    requires HoldsTest(g, test, Entry(a), Entry(b)) && Holds(g, a, ret, end) && Holds(g, b, ret, end)
    requires InOrder(Fork(test, a, b, end)) && Entry(a) != Entry(b)
    requires Untouched(a, n) && Untouched(b, n) && InOrder(Recut(a, next, n)) && InOrder(Recut(b, next, n))
    ensures InOrder(Recut(Fork(test, a, b, end), next, n)) && test.id != n
  {
    RecutForm(g, next, n, a, ret, end);
    RecutForm(g, next, n, b, ret, end);
    FirstSide(g, n, a, ret, end);
    PlainTest(g, next, n, test, Entry(a), Entry(b));
    RecutFork(test, a, b, end, next, n);
    hide SplitOf, CfgOk, Recut, RecutTest, Holds, HoldsTest, First, Splits, PairInOrder, SideRecut, Count;
    PairStaysInOrder(test, RecutTest(test, Entry(a), Entry(b), next, n), a, b, Recut(a, next, n), Recut(b, next, n), n);
  }

  lemma RecutFork(test: TestShape, a: Shape, b: Shape, end: nat, next: nat, n: nat)
    ensures Recut(Fork(test, a, b, end), next, n)
         == Fork(RecutTest(test, Entry(a), Entry(b), next, n), Recut(a, next, n), Recut(b, next, n), end)
  {
  }

  /** A statement becomes an IF when it is the node split, and nothing else does. */
  lemma RecutForm(g: Cfg, next: nat, n: nat, sh: Shape, ret: bool, y: nat)
    requires Splits(g, next, n) && Holds(g, sh, ret, y) && Untouched(sh, n)
    ensures SideRecut(sh, Recut(sh, next, n), n)
  {
    CutParts(g, next, n);
    if sh.Stmt? && sh.id == n { FilterSteps(sh.e); }
  }

  /** A statement before the node to be split holds no conditional. */
  lemma FirstSide(g: Cfg, n: nat, sh: Shape, ret: bool, y: nat)
    requires First(g, n) && Holds(g, sh, ret, y)
    ensures sh.Stmt? && sh.id < n ==> Count(sh.e) == 0
  {
    if sh.Stmt? && sh.id < n { assert !Conditional(g, sh.id); }
  }

  lemma PlainTest(g: Cfg, next: nat, n: nat, test: TestShape, a: nat, b: nat)
    requires Splits(g, next, n) && HoldsTest(g, test, a, b) && test.Single? && Count(test.c) == 0
    ensures test.id != n
    ensures RecutTest(test, a, b, next, n)
         == Single(test.id, test.c, if (if test.swapped then b else a) == n then !test.swapped else test.swapped)
  {
  }

  /** A side before and after the split of node n. */
  predicate SideRecut(sh: Shape, sh': Shape, n: nat) {
    && (sh'.Fork? <==> sh.Fork? || Entry(sh) == n)
    && (sh.Stmt? && sh.id != n ==> sh' == sh)
    && (Entry(sh) == n ==> sh.Stmt? && Count(sh.e) > 0)
  }

  lemma PairStaysInOrder(test: TestShape, test': TestShape, a: Shape, b: Shape, a': Shape, b': Shape, n: nat)
    requires PairInOrder(test, a, b) && SideRecut(a, a', n) && SideRecut(b, b', n) && Entry(a) != Entry(b)
    requires a.Stmt? && a.id < n ==> Count(a.e) == 0
    requires var first := if test.swapped then Entry(b) else Entry(a);
             test' == Single(test.id, test.c, if first == n then !test.swapped else test.swapped)
    ensures PairInOrder(test', a', b')
  {
    hide Count;
  }
}
