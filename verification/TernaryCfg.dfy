/** The control-flow graph while conditional expressions are split out of its nodes. */
module TernaryCfg {
  import opened Collections
  import opened ExpressionSyntax
  import opened TernarySpec
  import opened TernaryTrees

  datatype Kind = EXPRESSION | VARIABLE | RETURN | IF | IFLOOP | ENDIF | OTHER

  datatype Node = Node(kind: Kind, expr: Option<Expr>, sons: seq<nat>)

  /** Nodes by number. Numbers grow, so they give the order in which nodes were registered. */
  type Cfg = map<nat, Node>

  function Without(s: seq<nat>, n: nat): seq<nat> {
    if s == [] then []
    else Without(s[..|s| - 1], n) + if s[|s| - 1] == n then [] else [s[|s| - 1]]
  }

  function Occurrences(s: seq<nat>, n: nat): nat {
    if s == [] then 0 else Occurrences(s[..|s| - 1], n) + if s[|s| - 1] == n then 1 else 0
  }

  function Repeated(x: nat, k: nat): seq<nat> {
    seq(k, i => x)
  }

  /** A father's sons: n is taken out and its replacement added at the end. */
  function Redirected(s: seq<nat>, n: nat, x: nat): seq<nat> {
    Without(s, n) + Repeated(x, Occurrences(s, n))
  }

  function Replaced(m: nat, n: nat, x: nat): nat {
    if m == n then x else m
  }

  lemma RedirectedOne(y: nat, n: nat, x: nat)
    ensures Redirected([y], n, x) == [Replaced(y, n, x)]
    ensures Redirected([], n, x) == []
  {
    WithoutOne(y, n);
    assert Repeated(x, 0) == [] && Repeated(x, 1) == [x];
  }

  lemma WithoutOne(y: nat, n: nat)
    ensures Without([y], n) == if y == n then [] else [y]
    ensures Occurrences([y], n) == if y == n then 1 else 0
    ensures Without([], n) == [] && Occurrences([], n) == 0
  {
    assert [y][..0] == [];
  }

  /** Of two sons, the one that is replaced becomes the second. */
  lemma RedirectedTwo(a: nat, b: nat, n: nat, x: nat)
    requires a != b
    ensures Redirected([a, b], n, x) == if n == a then [b, x] else [a, Replaced(b, n, x)]
  {
    assert [a, b][..1] == [a];
    WithoutOne(a, n);
    assert Without([a, b], n) == Without([a], n) + if b == n then [] else [b];
    assert Repeated(x, 0) == [] && Repeated(x, 1) == [x];
  }

  lemma RedirectedTwice(a: nat, n: nat, x: nat)
    ensures Redirected([a, a], n, x) == [Replaced(a, n, x), Replaced(a, n, x)]
  {
    assert [a, a][..1] == [a];
    WithoutOne(a, n);
    assert Repeated(x, 0) == [] && Repeated(x, 2) == [x, x];
  }

  lemma {:induction false} RedirectedBelow(s: seq<nat>, n: nat, x: nat, bound: nat)
    requires x < bound && forall i :: 0 <= i < |s| ==> s[i] < bound
    ensures forall i :: 0 <= i < |Redirected(s, n, x)| ==> Redirected(s, n, x)[i] < bound
  {
    WithoutBelow(s, n, bound);
  }

  lemma {:induction false} WithoutBelow(s: seq<nat>, n: nat, bound: nat)
    requires forall i :: 0 <= i < |s| ==> s[i] < bound
    ensures forall i :: 0 <= i < |Without(s, n)| ==> Without(s, n)[i] < bound
  {
    if s != [] { WithoutBelow(s[..|s| - 1], n, bound); }
  }

  // ----- one node -----

  /** The kind and the sons of the two statements that replace a node of this kind. */
  function PartKind(kind: Kind): Kind { if kind == RETURN then RETURN else EXPRESSION }

  function PartSons(kind: Kind, end: nat): seq<nat> { if kind == RETURN then [] else [end] }

  /** Node n gives way to an IF with two statements and an ENDIF that inherits n's sons. */
  function Cut(g: Cfg, next: nat, n: nat, c: Expr, t: Expr, f: Expr): Cfg
    requires n in g
  {
    map m | m in (g.Keys - {n}) + {next, next + 1, next + 2, next + 3} ::
      if m == next then Node(IF, Some(c), [next + 1, next + 2])
      else if m == next + 1 then Node(PartKind(g[n].kind), Some(t), PartSons(g[n].kind, next + 3))
      else if m == next + 2 then Node(PartKind(g[n].kind), Some(f), PartSons(g[n].kind, next + 3))
      else if m == next + 3 then Node(ENDIF, None, Redirected(g[n].sons, n, next))
      else g[m].(sons := Redirected(g[m].sons, n, next))
  }

  function WithParts(g: Cfg, next: nat, kind: Kind, c: Expr, t: Expr, f: Expr): Cfg {
    g[next := Node(IF, Some(c), [])]
     [next + 1 := Node(PartKind(kind), Some(t), [])]
     [next + 2 := Node(PartKind(kind), Some(f), [])]
     [next + 3 := Node(ENDIF, None, [])]
  }

  function RedirectAll(g: Cfg, n: nat, x: nat): Cfg {
    map m | m in g :: g[m].(sons := Redirected(g[m].sons, n, x))
  }

  /** The parts linked to each other, the ENDIF given n's sons, and n gone. */
  function Linked(g: Cfg, next: nat, n: nat, kind: Kind): Cfg
    requires n in g
  {
    map m | m in g && m != n ::
      if m == next then g[m].(sons := g[m].sons + [next + 1] + [next + 2])
      else if m == next + 1 || m == next + 2 then g[m].(sons := g[m].sons + PartSons(kind, next + 3))
      else if m == next + 3 then g[m].(sons := g[n].sons)
      else g[m]
  }

  /** Adding the parts, redirecting and linking make up the cut. */
  lemma StepsAreCut(g: Cfg, next: nat, n: nat, c: Expr, t: Expr, f: Expr)
    requires n in g && forall m :: m in g ==> m < next
    ensures Linked(RedirectAll(WithParts(g, next, g[n].kind, c, t, f), n, next), next, n, g[n].kind)
         == Cut(g, next, n, c, t, f)
  {
    RedirectedOne(n, n, next);
    hide Redirected;
    var h := RedirectAll(WithParts(g, next, g[n].kind, c, t, f), n, next);
    var a, b := Linked(h, next, n, g[n].kind), Cut(g, next, n, c, t, f);
    assert h[next].sons == [] && h[next + 1].sons == [] && h[next + 2].sons == [] && h[next + 3].sons == [];
    assert a.Keys == b.Keys;
    var no: seq<nat> := [];
    assert no + [next + 1] + [next + 2] == [next + 1, next + 2];
    assert no + PartSons(g[n].kind, next + 3) == PartSons(g[n].kind, next + 3);
    forall m | m in a ensures a[m] == b[m] {
    }
  }

  lemma NothingAdded(s: seq<nat>)
    ensures s + [] == s
  {
  }

  predicate Conditional(g: Cfg, n: nat) {
    n in g && g[n].expr.Some? && Count(g[n].expr.value) > 0
  }

  /** Numbers are below next, and ENDIFs have no expression. */
  ghost predicate Numbered(g: Cfg, next: nat) {
    forall n :: n in g ==>
      && n < next && (forall i :: 0 <= i < |g[n].sons| ==> g[n].sons[i] < next)
      && (g[n].expr.Some? ==> g[n].kind != ENDIF)
  }

  /** Every expression can be split until no conditional is left. */
  ghost predicate AllSplittable(g: Cfg) {
    forall n :: n in g && g[n].expr.Some? ==> Splittable(g[n].expr.value)
  }

  ghost predicate CfgOk(g: Cfg, next: nat) {
    Numbered(g, next) && AllSplittable(g)
  }

  /** The expression of n can be split at least once. */
  predicate Divides(g: Cfg, n: nat, s: SplitResult) {
    Conditional(g, n) && s == SplitOf(g[n].expr.value) && s.Split? && s.condition.Some?
  }

  /** The graph after node n has been split. */
  function CutAt(g: Cfg, next: nat, n: nat): Cfg
    requires CfgOk(g, next) && Conditional(g, n)
  {
    FilterSteps(g[n].expr.value);
    var s := SplitOf(g[n].expr.value);
    Cut(g, next, n, s.condition.value, s.onTrue, s.onFalse)
  }

  lemma CutIsOk(g: Cfg, next: nat, n: nat)
    requires CfgOk(g, next) && Conditional(g, n)
    ensures CfgOk(CutAt(g, next, n), next + 4)
  {
    FilterSteps(g[n].expr.value);
    var s := SplitOf(g[n].expr.value);
    CutIsNumbered(g, next, n, s);
    CutSplittable(g, next, n, s);
  }

  lemma CutIsNumbered(g: Cfg, next: nat, n: nat, s: SplitResult)
    requires Numbered(g, next) && Divides(g, n, s)
    ensures Numbered(Cut(g, next, n, s.condition.value, s.onTrue, s.onFalse), next + 4)
  {
    var h := Cut(g, next, n, s.condition.value, s.onTrue, s.onFalse);
    hide SplitOf, Splittable, Redirected, Divides;
    forall m | m in h
      ensures forall i :: 0 <= i < |h[m].sons| ==> h[m].sons[i] < next + 4
    {
      if m in g { RedirectedBelow(g[m].sons, n, next, next + 4); }
      RedirectedBelow(g[n].sons, n, next, next + 4);
    }
  }

  /** A split neither makes nor removes an expression that cannot be split to the end. */
  lemma CutSplittable(g: Cfg, next: nat, n: nat, s: SplitResult)
    requires Numbered(g, next) && Divides(g, n, s)
    ensures AllSplittable(Cut(g, next, n, s.condition.value, s.onTrue, s.onFalse)) <==> AllSplittable(g)
  {
    var h := Cut(g, next, n, s.condition.value, s.onTrue, s.onFalse);
    SplittableIff(g[n].expr.value);
    hide SplitOf, Splittable, Redirected, Numbered;
    assert next !in g && next + 1 !in g && next + 2 !in g && next + 3 !in g by { NotYet(g, next); }
    if AllSplittable(h) {
      assert h[next].expr == Some(s.condition.value);
      assert h[next + 1].expr == Some(s.onTrue) && h[next + 2].expr == Some(s.onFalse);
      forall m | m in g && g[m].expr.Some? ensures Splittable(g[m].expr.value) {
        if m != n { assert h[m].expr == g[m].expr; }
      }
    }
    if AllSplittable(g) {
      forall m | m in h && h[m].expr.Some? ensures Splittable(h[m].expr.value) {
        if m in g { assert h[m].expr == g[m].expr; }
      }
    }
  }

  lemma NotYet(g: Cfg, next: nat)
    requires Numbered(g, next)
    ensures forall m :: m >= next ==> m !in g
  {
  }

  // ----- until no conditional is left -----

  /** Splitting an expression of burden k leaves three lighter ones. */
  function Weight(k: nat): nat {
    if k == 0 then 0 else 1 + 3 * Weight(k - 1)
  }

  lemma {:induction false} WeightGrows(j: nat, k: nat)
    requires j <= k
    ensures Weight(j) <= Weight(k)
  {
    if j < k { WeightGrows(j, k - 1); }
  }

  function NodeWeight(g: Cfg, n: nat): nat {
    if n in g && g[n].expr.Some? then Weight(Burden(g[n].expr.value)) else 0
  }

  function Total(g: Cfg, n: nat): nat {
    if n == 0 then 0 else Total(g, n - 1) + NodeWeight(g, n - 1)
  }

  lemma {:induction false} TotalAfterCut(g: Cfg, next: nat, n: nat, s: SplitResult, k: nat)
    requires Numbered(g, next) && Divides(g, n, s) && k <= next
    ensures Total(Cut(g, next, n, s.condition.value, s.onTrue, s.onFalse), k) + (if n < k then NodeWeight(g, n) else 0)
         == Total(g, k)
  {
    if k > 0 { TotalAfterCut(g, next, n, s, k - 1); }
  }

  lemma SplitLowersTotal(g: Cfg, next: nat, n: nat, s: SplitResult)
    requires Numbered(g, next) && Divides(g, n, s)
    ensures Total(Cut(g, next, n, s.condition.value, s.onTrue, s.onFalse), next + 4) < Total(g, next)
  {
    hide Cut, NodeWeight, Total, SplitOf, Burden, Weight, Numbered;
    PartWeights(g, next, n, s);
    var e, h := g[n].expr.value, Cut(g, next, n, s.condition.value, s.onTrue, s.onFalse);
    TotalAfterCut(g, next, n, s, next);
    FourMore(h, next);
    LighterParts(Burden(e), Burden(s.condition.value), Burden(s.onTrue), Burden(s.onFalse));
  }

  lemma {:induction false} WeightStep(k: nat)
    requires k > 0
    ensures Weight(k) == 1 + 3 * Weight(k - 1)
  {
  }

  lemma {:induction false} LighterParts(k: nat, c: nat, t: nat, f: nat)
    requires c < k && t < k && f < k
    ensures Weight(c) + Weight(t) + Weight(f) < Weight(k)
  {
    hide Weight;
    WeightStep(k);
    WeightGrows(c, k - 1);
    WeightGrows(t, k - 1);
    WeightGrows(f, k - 1);
  }

  lemma PartWeights(g: Cfg, next: nat, n: nat, s: SplitResult)
    requires Numbered(g, next) && Divides(g, n, s)
    ensures var h := Cut(g, next, n, s.condition.value, s.onTrue, s.onFalse);
            && NodeWeight(h, next) == Weight(Burden(s.condition.value))
            && NodeWeight(h, next + 1) == Weight(Burden(s.onTrue))
            && NodeWeight(h, next + 2) == Weight(Burden(s.onFalse)) && NodeWeight(h, next + 3) == 0
    ensures n in g && g[n].expr.Some? && NodeWeight(g, n) == Weight(Burden(g[n].expr.value)) && n < next
    ensures var k := Burden(g[n].expr.value);
            Burden(s.condition.value) < k && Burden(s.onTrue) < k && Burden(s.onFalse) < k
  {
    SplitUnburdens(g[n].expr.value);
    hide Redirected, SplitOf, Weight, Burden;
  }

  lemma CutShrinks(g: Cfg, next: nat, n: nat)
    requires CfgOk(g, next) && Conditional(g, n)
    ensures Total(CutAt(g, next, n), next + 4) < Total(g, next)
  {
    FilterSteps(g[n].expr.value);
    SplitLowersTotal(g, next, n, SplitOf(g[n].expr.value));
  }

  lemma FourMore(h: Cfg, n: nat)
    ensures Total(h, n + 4)
         == Total(h, n) + NodeWeight(h, n) + NodeWeight(h, n + 1) + NodeWeight(h, n + 2) + NodeWeight(h, n + 3)
  {
    assert Total(h, n + 1) == Total(h, n) + NodeWeight(h, n);
    assert Total(h, n + 2) == Total(h, n + 1) + NodeWeight(h, n + 1);
    assert Total(h, n + 3) == Total(h, n + 2) + NodeWeight(h, n + 2);
  }

  /** The first registered node with a conditional, or next. */
  function FirstConditional(g: Cfg, next: nat, from: nat): (n: nat)
    requires from <= next
    ensures from <= n <= next && (n < next ==> Conditional(g, n))
    ensures forall m :: from <= m < n ==> !Conditional(g, m)
    decreases next - from
  {
    if from == next || Conditional(g, from) then from else FirstConditional(g, next, from + 1)
  }

  datatype Graph = Graph(cfg: Cfg, next: nat)

  /** Splitting the first conditional node until there is none. */
  ghost function Filtered(g: Cfg, next: nat): (h: Graph)
    requires CfgOk(g, next)
    ensures CfgOk(h.cfg, h.next) && forall n :: !Conditional(h.cfg, n)
    decreases Total(g, next)
  {
    var n := FirstConditional(g, next, 0);
    if n == next then Graph(g, next)
    else
      CutIsOk(g, next, n);
      CutShrinks(g, next, n);
      Filtered(CutAt(g, next, n), next + 4)
  }

  lemma FilteredStep(g: Cfg, next: nat)
    requires CfgOk(g, next)
    ensures var n := FirstConditional(g, next, 0);
            && (n < next ==>
                  && CfgOk(CutAt(g, next, n), next + 4)
                  && Filtered(g, next) == Filtered(CutAt(g, next, n), next + 4))
            && (n == next ==> Filtered(g, next) == Graph(g, next))
  {
    var n := FirstConditional(g, next, 0);
    if n < next { CutIsOk(g, next, n); }
  }

  lemma CutParts(g: Cfg, next: nat, n: nat)
    requires CfgOk(g, next) && Conditional(g, n)
    ensures n in g && (forall m :: m in g ==> m < next) && g[n].expr.Some?
    ensures var s := SplitOf(g[n].expr.value);
            && s.Split? && s.condition.Some?
            && CutAt(g, next, n) == Cut(g, next, n, s.condition.value, s.onTrue, s.onFalse)
  {
    FilterSteps(g[n].expr.value);
  }

  class FunctionSolc {
    var nodes: Cfg
    var next: nat

    constructor (g: Cfg, next: nat)
      ensures nodes == g && this.next == next
    {
      nodes, this.next := g, next;
    }

    method NewNode(kind: Kind, expr: Option<Expr>) returns (n: nat)
      modifies this
      ensures n == old(next) && next == old(next) + 1
      ensures nodes == old(nodes)[n := Node(kind, expr, [])]
    {
      n := next;
      nodes, next := nodes[n := Node(kind, expr, [])], next + 1;
    }

    method Link(m: nat, n: nat)
      requires m in nodes
      modifies this`nodes
      ensures nodes == old(nodes)[m := old(nodes)[m].(sons := old(nodes)[m].sons + [n])]
    {
      nodes := nodes[m := nodes[m].(sons := nodes[m].sons + [n])];
    }

    method AddParts(kind: Kind, c: Expr, t: Expr, f: Expr)
      modifies this
      ensures nodes == WithParts(old(nodes), old(next), kind, c, t, f) && next == old(next) + 4
    {
      var conditionNode := NewNode(IF, Some(c));
      var trueNode := NewNode(PartKind(kind), Some(t));
      var falseNode := NewNode(PartKind(kind), Some(f));
      var endifNode := NewNode(ENDIF, None);
    }

    /** In every node that has n as a son, x takes its place. */
    method RedirectFathers(n: nat, x: nat)
      modifies this`nodes
      ensures nodes == RedirectAll(old(nodes), n, x)
    {
      var fathers := nodes.Keys;
      while fathers != {}
        invariant fathers <= nodes.Keys && nodes.Keys == old(nodes).Keys
        invariant forall m :: m in nodes ==>
                    nodes[m] == if m in fathers then old(nodes)[m]
                                else old(nodes)[m].(sons := Redirected(old(nodes)[m].sons, n, x))
      {
        var father :| father in fathers;
        fathers := fathers - {father};
        nodes := nodes[father := nodes[father].(sons := Redirected(nodes[father].sons, n, x))];
      }
    }

    method LinkParts(first: nat, n: nat, kind: Kind)
      requires n in nodes && n < first && {first, first + 1, first + 2, first + 3} <= nodes.Keys
      modifies this`nodes
      ensures nodes == Linked(old(nodes), first, n, kind)
    {
      LinkCondition(first, n);
      LinkStatements(first, kind);
      nodes := map m | m in nodes && m != n :: nodes[m];
    }

    method LinkCondition(first: nat, n: nat)
      requires n in nodes && n < first && {first, first + 1, first + 2, first + 3} <= nodes.Keys
      modifies this`nodes
      ensures nodes == map m | m in old(nodes) ::
                if m == first then old(nodes)[m].(sons := old(nodes)[m].sons + [first + 1] + [first + 2])
                else if m == first + 3 then old(nodes)[m].(sons := old(nodes)[n].sons)
                else old(nodes)[m]
    {
      var endifNode := first + 3;
      nodes := nodes[endifNode := nodes[endifNode].(sons := nodes[n].sons)];
      Link(first, first + 1);
      Link(first, first + 2);
    }

    method LinkStatements(first: nat, kind: Kind)
      requires {first + 1, first + 2} <= nodes.Keys
      modifies this`nodes
      ensures nodes == map m | m in old(nodes) ::
                if m == first + 1 || m == first + 2
                then old(nodes)[m].(sons := old(nodes)[m].sons + PartSons(kind, first + 3))
                else old(nodes)[m]
    {
      LinkEnd(first + 1, first + 3, kind);
      LinkEnd(first + 2, first + 3, kind);
    }

    /** A RETURN does not go on to the ENDIF. */
    method LinkEnd(m: nat, endifNode: nat, kind: Kind)
      requires m in nodes
      modifies this`nodes
      ensures nodes == old(nodes)[m := old(nodes)[m].(sons := old(nodes)[m].sons + PartSons(kind, endifNode))]
    {
      if kind != RETURN {
        Link(m, endifNode);
      } else {
        NothingAdded(nodes[m].sons);
      }
    }

    /** `_split_ternary_node`. The fathers of a node are the nodes that have it among their sons. */
    method SplitTernaryNode(n: nat, c: Expr, t: Expr, f: Expr)
      requires n in nodes && forall m :: m in nodes ==> m < next
      modifies this
      ensures nodes == Cut(old(nodes), old(next), n, c, t, f) && next == old(next) + 4
    {
      var kind, conditionNode := nodes[n].kind, next;
      StepsAreCut(nodes, next, n, c, t, f);
      hide Cut, Linked;
      AddParts(kind, c, t, f);
      RedirectFathers(n, conditionNode);
      LinkParts(conditionNode, n, kind);
    }

    /** One round of the search: a node is split, or there is none left to split, or the split of
        the first one raises or records no condition. */
    method SplitFirst() returns (found: bool, raised: bool)
      requires Numbered(nodes, next)
      modifies this
      ensures Numbered(nodes, next) && (AllSplittable(nodes) <==> AllSplittable(old(nodes)))
      ensures raised ==> !AllSplittable(nodes)
      ensures found ==> next > old(next) && Total(nodes, next) < Total(old(nodes), old(next))
      ensures !found ==> nodes == old(nodes) && next == old(next)
      ensures !found && !raised ==> NoneConditional(nodes)
      ensures AllSplittable(nodes) ==> Filtered(nodes, next) == Filtered(old(nodes), old(next))
    {
      hide *;
      found, raised := false, false;
      var n := FirstConditional(nodes, next, 0);
      if n == next {
        NoneLeft(nodes, next);
        return;
      }
      HasExpression(nodes, n);
      var s := SplitOf(nodes[n].expr.value);
      if s.Raised? || s.condition.None? {
        CannotSplit(nodes, n, s);
        return false, true;
      }
      found := true;
      OneCut(nodes, next, n, s);
      SplitTernaryNode(n, s.condition.value, s.onTrue, s.onFalse);
    }

    /** `_filter_ternary`: the first node with a conditional is split, and the search starts over.
        It ends on every graph, and raises exactly if some expression cannot be split to the end. */
    method FilterTernary() returns (updated: bool, raised: bool)
      requires Numbered(nodes, next)
      modifies this
      ensures raised <==> !AllSplittable(old(nodes))
      ensures !raised ==> Graph(nodes, next) == Filtered(old(nodes), old(next))
      ensures updated <==> next != old(next)
    {
      hide Numbered, AllSplittable, NoneConditional, Filtered, Total;
      updated, raised := false, false;
      var ternaryFound := true;
      while ternaryFound
        invariant Numbered(nodes, next) && next >= old(next) && (updated <==> next != old(next)) && !raised
        invariant AllSplittable(nodes) <==> AllSplittable(old(nodes))
        invariant AllSplittable(nodes) ==> Filtered(nodes, next) == Filtered(old(nodes), old(next))
        invariant !ternaryFound ==> NoneConditional(nodes)
        decreases Total(nodes, next), ternaryFound
      {
        ternaryFound, raised := SplitFirst();
        updated := updated || ternaryFound;
        if raised { return; }
      }
      Finished(nodes, next);
    }
  }

  ghost predicate NoneConditional(g: Cfg) {
    forall n :: !Conditional(g, n)
  }

  lemma NoneLeft(g: Cfg, next: nat)
    requires Numbered(g, next) && FirstConditional(g, next, 0) == next
    ensures NoneConditional(g)
  {
    forall n: nat ensures !Conditional(g, n) {
      if n in g { assert n < next; }
    }
  }

  lemma HasExpression(g: Cfg, n: nat)
    requires Conditional(g, n)
    ensures n in g && g[n].expr.Some? && Count(g[n].expr.value) > 0
  {
  }

  lemma CannotSplit(g: Cfg, n: nat, s: SplitResult)
    requires Conditional(g, n) && s == SplitOf(g[n].expr.value) && (s.Raised? || s.condition.None?)
    ensures !AllSplittable(g)
  {
    SplittableIff(g[n].expr.value);
    hide SplitOf, Splittable;
  }

  /** What one split does. */
  lemma OneCut(g: Cfg, next: nat, n: nat, s: SplitResult)
    requires Numbered(g, next) && n == FirstConditional(g, next, 0) && n < next
    requires Conditional(g, n) && s == SplitOf(g[n].expr.value) && s.Split? && s.condition.Some?
    ensures n in g && forall m :: m in g ==> m < next
    ensures var h := Cut(g, next, n, s.condition.value, s.onTrue, s.onFalse);
            && Numbered(h, next + 4) && (AllSplittable(h) <==> AllSplittable(g))
            && Total(h, next + 4) < Total(g, next)
            && (AllSplittable(h) ==> Filtered(h, next + 4) == Filtered(g, next))
  {
    CutIsNumbered(g, next, n, s);
    CutSplittable(g, next, n, s);
    SplitLowersTotal(g, next, n, s);
    if AllSplittable(g) {
      CutParts(g, next, n);
      FilteredStep(g, next);
    }
    hide Cut, SplitOf, Total, Splittable, FirstConditional, Filtered;
  }

  /** Without a conditional nothing is split, and no expression makes a split fail. */
  lemma Finished(g: Cfg, next: nat)
    requires Numbered(g, next) && NoneConditional(g)
    ensures AllSplittable(g) && Filtered(g, next) == Graph(g, next)
  {
    forall n | n in g && g[n].expr.Some? ensures Splittable(g[n].expr.value) { assert !Conditional(g, n); }
  }
}
