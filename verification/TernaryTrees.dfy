/** Splitting repeated until no conditional expression is left: it ends on every expression, and
    the decision tree of the splits of an ordered expression means what the expression meant. */
module TernaryTrees {
  import opened Collections
  import opened ExpressionSyntax
  import opened TernaryMeaning
  import opened TernaryRuns
  import opened TernarySpec

  // ----- why it ends -----

  /** A conditional weighs its branches twice, since a chosen index can be put into a list again. */
  function Burden(e: Expr): nat
    decreases e
  {
    match e
    case Leaf(_) => 0
    case Index(_, base, key) => Burden(base) + Burden(key)
    case Wrap(_, inner) => Burden(inner)
    case Group(_, _, items) => BurdenAll(items)
    case Call(_, called, args) => Burden(called) + BurdenAll(args)
    case Ternary(cond, onTrue, onFalse) => 1 + Burden(cond) + 2 * Burden(onTrue) + 2 * Burden(onFalse)
    case Opaque(_) => 0
  }

  function BurdenAll(es: seq<Expr>): nat
    decreases es
  {
    if es == [] then 0 else BurdenAll(es[..|es| - 1]) + Burden(es[|es| - 1])
  }

  lemma {:induction false} BurdenAppend(xs: seq<Expr>, ys: seq<Expr>)
    ensures BurdenAll(xs + ys) == BurdenAll(xs) + BurdenAll(ys)
  {
    if ys == [] {
      assert xs + ys == xs;
    } else {
      assert (xs + ys)[..|xs + ys| - 1] == xs + ys[..|ys| - 1];
      BurdenAppend(xs, ys[..|ys| - 1]);
    }
  }

  lemma BurdenOne(e: Expr)
    ensures BurdenAll([e]) == Burden(e)
  {
    assert [e][..0] == [];
  }

  /** A side is lighter by at least one for each recorded conditional. */
  lemma {:induction false} PickBurden(e: Expr, found: bool, side: bool)
    ensures Burden(Pick(e, found, side)) + |Hits(e, found)| <= Burden(e)
    ensures forall h :: h in Hits(e, found) ==> Burden(h) <= Burden(e)
    decreases e, 0
  {
    if !found {
      match e
      case Wrap(_, inner) => PiecesBurden(inner, false, false, side);
      case Group(_, _, items) => PickItemsBurden(items, false, true, side);
      case Call(_, called, args) =>
        PiecesBurden(called, false, false, side);
        PickItemsBurden(args, HitsItem(called, false, false) != [], false, side);
      case _ =>
    }
  }

  lemma {:induction false} PiecesBurden(item: Expr, found: bool, inGroup: bool, side: bool)
    ensures BurdenAll(Pieces(item, found, inGroup, side)) + |HitsItem(item, found, inGroup)| <= Burden(item)
    ensures !inGroup ==> BurdenAll(Pieces(item, found, inGroup, side)) == Burden(PickItem(item, found, side))
    ensures forall h :: h in HitsItem(item, found, inGroup) ==> Burden(h) <= Burden(item)
    decreases item, 1
  {
    if inGroup && TernaryKey(item) {
      var k := Branch(item.key, side);
      var access := Index(item.tag, item.base, k);
      assert [access] + [k] == [access, k];
      BurdenAppend([access], [k]);
      BurdenOne(access);
      BurdenOne(k);
    } else {
      if !item.Ternary? { PickBurden(item, found, side); }
      BurdenOne(PickItem(item, found, side));
    }
  }

  lemma {:induction false} PickItemsBurden(items: seq<Expr>, found: bool, inGroup: bool, side: bool)
    ensures BurdenAll(PickItems(items, found, inGroup, side)) + |HitsItems(items, found, inGroup)| <= BurdenAll(items)
    ensures forall h :: h in HitsItems(items, found, inGroup) ==> Burden(h) <= BurdenAll(items)
    decreases items, 0
  {
    if items != [] {
      var init, last := items[..|items| - 1], items[|items| - 1];
      var now := found || HitsItems(init, found, inGroup) != [];
      PickItemsBurden(init, found, inGroup, side);
      PiecesBurden(last, now, inGroup, side);
      BurdenAppend(PickItems(init, found, inGroup, side), Pieces(last, now, inGroup, side));
    }
  }

  /** Every split that records a condition leaves three lighter expressions. */
  lemma SplitUnburdens(e: Expr)
    requires SplitOf(e).Split? && SplitOf(e).condition.Some?
    ensures Burden(SplitOf(e).condition.value) < Burden(e)
    ensures Burden(SplitOf(e).onTrue) < Burden(e) && Burden(SplitOf(e).onFalse) < Burden(e)
  {
    if !e.Ternary? {
      var hits := Hits(e, false);
      HitsAreTernary(e, false);
      assert hits[|hits| - 1] in hits;
      PickBurden(e, false, true);
      PickBurden(e, false, false);
    }
  }

  // ----- splitting until nothing is left -----

  datatype Tree = Done(e: Expr) | Choose(cond: Tree, onTrue: Tree, onFalse: Tree)

  /** Splits again and again every expression a split has produced. None stands for the
      front end's parsing error: a split raised, or recorded no condition. */
  function Filter(e: Expr): Option<Tree>
    decreases Burden(e)
  {
    if Count(e) == 0 then Some(Done(e)) else
    match SplitOf(e)
    case Raised => None
    case Split(None, _, _) => None
    case Split(Some(cond), onTrue, onFalse) =>
      SplitUnburdens(e);
      var c, t, f := Filter(cond), Filter(onTrue), Filter(onFalse);
      if c.None? || t.None? || f.None? then None else Some(Choose(c.value, t.value, f.value))
  }

  /** No split on the way raises or fails to record a condition. */
  predicate Splittable(e: Expr) { Filter(e).Some? }

  lemma FilterSteps(e: Expr)
    requires Splittable(e) && Count(e) > 0
    ensures var s := SplitOf(e);
            && s.Split? && s.condition.Some?
            && Splittable(s.condition.value) && Splittable(s.onTrue) && Splittable(s.onFalse)
            && Burden(s.condition.value) < Burden(e) && Burden(s.onTrue) < Burden(e) && Burden(s.onFalse) < Burden(e)
  {
    SplitUnburdens(e);
  }

  /** An expression can be split to the end exactly if its parts can. */
  lemma SplittableIff(e: Expr)
    requires Count(e) > 0
    ensures var s := SplitOf(e);
            Splittable(e) <==>
              && s.Split? && s.condition.Some?
              && Splittable(s.condition.value) && Splittable(s.onTrue) && Splittable(s.onFalse)
  {
    if SplitOf(e).Split? && SplitOf(e).condition.Some? { SplitUnburdens(e); }
  }

  function EvalTree<V>(sem: Semantics<V>, t: Tree): V {
    match t
    case Done(e) => Eval(sem, e)
    case Choose(c, x, y) => if sem.truth(EvalTree(sem, c)) then EvalTree(sem, x) else EvalTree(sem, y)
  }

  predicate TernaryFree(t: Tree) {
    match t
    case Done(e) => Count(e) == 0
    case Choose(c, x, y) => TernaryFree(c) && TernaryFree(x) && TernaryFree(y)
  }

  /** Repeated splitting of an ordered expression ends without an error in a tree with no
      conditional left, and the tree means what the expression meant. */
  lemma {:induction false} FilterPreserves<V>(sem: Semantics<V>, e: Expr)
    requires Ordered(e)
    ensures Filter(e).Some? && TernaryFree(Filter(e).value)
    ensures EvalTree(sem, Filter(e).value) == Eval(sem, e)
    decreases Count(e)
  {
    if Count(e) > 0 {
      OrderedSteps(e);
      if !HasOpen(e) { ClosedIsFree(e); }
      SplitOrdered(e);
      OrderedIsHarmless(e, false);
      HitsAreTernary(e, false);
      var s := SplitOf(e);
      SplitPreserves(sem, e);
      FilterPreserves(sem, s.condition.value);
      FilterPreserves(sem, s.onTrue);
      FilterPreserves(sem, s.onFalse);
    }
  }
}
