/** Splitting once preserves meaning whenever the recorded conditionals agree. */
module TernaryMeaning {
  import opened ExpressionSyntax
  import opened TernarySpec

  /** What the splitter leaves, on one side, where the right operand of a binary node is read
      once the left one has recorded a condition. */
  function RightPicked(y: Expr, side: bool): Expr {
    if TernaryKey(y) then Index(y.tag, y.base, Branch(y.key, side)) else PickItem(y, true, side)
  }

  /** Extra list entries do no harm: a tuple visited holds no index access with a conditional
      index, and next to one on the left of a binary node stands, on both sides, what is picked
      for the right operand. Binary nodes have two operands. */
  predicate Harmless(e: Expr, found: bool)
    decreases e, 0
  {
    found ||
    match e
    case Wrap(_, inner) => HarmlessItem(inner, false)
    case Group(_, binary, items) =>
      && HarmlessItems(items, false, true)
      && if binary then |items| == 2 && HarmlessPair(items[0], items[1])
         else forall i :: 0 <= i < |items| ==> !TernaryKey(items[i])
    case Call(_, called, args) =>
      HarmlessItem(called, false) && HarmlessItems(args, HitsItem(called, false, false) != [], false)
    case _ => true
  }

  predicate HarmlessPair(x: Expr, y: Expr) {
    TernaryKey(x) ==> x.key.onTrue == RightPicked(y, true) && x.key.onFalse == RightPicked(y, false)
  }

  predicate HarmlessItem(item: Expr, found: bool)
    decreases item, 1
  {
    item.Ternary? || Harmless(item, found)
  }

  predicate HarmlessItems(items: seq<Expr>, found: bool, inGroup: bool)
    decreases items, 0
  {
    items == [] ||
    (&& HarmlessItems(items[..|items| - 1], found, inGroup)
     && HarmlessItem(items[|items| - 1], found || HitsItems(items[..|items| - 1], found, inGroup) != []))
  }

  /** Under sem, each recorded conditional takes the given side, or its side does not matter. */
  ghost predicate Agrees<V>(sem: Semantics<V>, hits: seq<Expr>, side: bool)
    requires AllTernary(hits)
  {
    forall h :: h in hits ==>
      sem.truth(Eval(sem, h.cond)) == side || Eval(sem, h.onTrue) == Eval(sem, h.onFalse)
  }

  lemma {:induction false} PickPreserves<V>(sem: Semantics<V>, e: Expr, found: bool, side: bool)
    requires Harmless(e, found)
    requires AllTernary(Hits(e, found)) && Agrees(sem, Hits(e, found), side)
    ensures Eval(sem, Pick(e, found, side)) == Eval(sem, e)
    decreases e, 0
  {
    if !found {
      match e
      case Wrap(_, inner) => PickItemPreserves(sem, inner, false, side);
      case Group(_, binary, items) =>
        if binary && TernaryKey(items[0]) {
          assert items == [items[0], items[1]];
          PickLeftPair(sem, e.tag, items[0], items[1], side);
        } else if binary && TernaryKey(items[1]) {
          PickPair(sem, e, side);
        } else {
          PickItemsPreserve(sem, items, false, true, side);
        }
      case Call(_, called, args) =>
        PickItemPreserves(sem, called, false, side);
        PickItemsPreserve(sem, args, HitsItem(called, false, false) != [], false, side);
      case _ =>
    }
  }

  lemma {:induction false} PickItemPreserves<V>(sem: Semantics<V>, item: Expr, found: bool, side: bool)
    requires HarmlessItem(item, found)
    requires AllTernary(HitsItem(item, found, false)) && Agrees(sem, HitsItem(item, found, false), side)
    ensures Eval(sem, PickItem(item, found, side)) == Eval(sem, item)
    decreases item, 1
  {
    if item.Ternary? {
      assert item in HitsItem(item, found, false);
    } else {
      PickPreserves(sem, item, found, side);
    }
  }

  lemma {:induction false} PickItemsPreserve<V>(sem: Semantics<V>, items: seq<Expr>, found: bool,
                                                inGroup: bool, side: bool)
    requires HarmlessItems(items, found, inGroup)
    requires forall i :: 0 <= i < |items| ==> !(inGroup && TernaryKey(items[i]))
    requires AllTernary(HitsItems(items, found, inGroup)) && Agrees(sem, HitsItems(items, found, inGroup), side)
    ensures EvalAll(sem, PickItems(items, found, inGroup, side)) == EvalAll(sem, items)
    decreases items, 0
  {
    if items != [] {
      var last := |items| - 1;
      var init := items[..last];
      var before := HitsItems(init, found, inGroup);
      var now := found || before != [];
      assert HitsItems(items, found, inGroup) == before + HitsItem(items[last], now, inGroup);
      PickItemsPreserve(sem, init, found, inGroup, side);
      PickItemPreserves(sem, items[last], now, side);
      EvalAllAppend(sem, PickItems(init, found, inGroup, side), [PickItem(items[last], now, side)]);
      EvalAllOne(sem, PickItem(items[last], now, side));
    }
  }

  /** What the last item of a list adds to the items before it. */
  lemma LastItem(items: seq<Expr>, inGroup: bool, side: bool)
    requires items != []
    ensures var (init, last) := (items[..|items| - 1], items[|items| - 1]);
            var now := HitsItems(init, false, inGroup) != [];
            && HitsItems(items, false, inGroup) == HitsItems(init, false, inGroup) + HitsItem(last, now, inGroup)
            && PickItems(items, false, inGroup, side)
               == PickItems(init, false, inGroup, side) + Pieces(last, now, inGroup, side)
            && RaisesItems(items, false, inGroup)
               == (RaisesItems(init, false, inGroup) || RaisesItem(last, now, inGroup))
  {
    hide HitsItem, Pieces, RaisesItem;
  }

  lemma NoItem(inGroup: bool, side: bool)
    ensures HitsItems([], false, inGroup) == [] && PickItems([], false, inGroup, side) == []
    ensures !RaisesItems([], false, inGroup)
  {
  }

  /** A one-element list is treated as its element. */
  lemma SingleItem(item: Expr, inGroup: bool, side: bool)
    ensures HitsItems([item], false, inGroup) == HitsItem(item, false, inGroup)
    ensures PickItems([item], false, inGroup, side) == Pieces(item, false, inGroup, side)
    ensures RaisesItems([item], false, inGroup) == RaisesItem(item, false, inGroup)
  {
    hide *;
    NoItem(inGroup, side);
    LastItem([item], inGroup, side);
    assert [item][..0] == [];
  }

  /** A two-element list is treated element by element. */
  lemma TwoItems(x: Expr, y: Expr, inGroup: bool, side: bool)
    ensures var now := HitsItem(x, false, inGroup) != [];
            && HitsItems([x, y], false, inGroup) == HitsItem(x, false, inGroup) + HitsItem(y, now, inGroup)
            && PickItems([x, y], false, inGroup, side)
               == Pieces(x, false, inGroup, side) + Pieces(y, now, inGroup, side)
            && RaisesItems([x, y], false, inGroup) == (RaisesItem(x, false, inGroup) || RaisesItem(y, now, inGroup))
  {
    hide *;
    SingleItem(x, inGroup, side);
    LastItem([x, y], inGroup, side);
    assert [x, y][..1] == [x];
  }

  /** The right operand of a binary node is an index access with a ternary index. */
  lemma {:induction false} PickPair<V>(sem: Semantics<V>, e: Expr, side: bool)
    requires Harmless(e, false) && e.Group? && e.binary && !TernaryKey(e.items[0]) && TernaryKey(e.items[1])
    requires AllTernary(Hits(e, false)) && Agrees(sem, Hits(e, false), side)
    ensures Eval(sem, Pick(e, false, side)) == Eval(sem, e)
    decreases e.items, 1
  {
    var x, y := e.items[0], e.items[1];
    assert e.items == [x, y];
    PickPairForm(e.tag, x, y, side);
    FirstHarmless(x, y);
    var hits := HitsItem(x, false, false);
    assert forall h :: h in hits ==> h in Hits(e, false);
    assert y.key in Hits(e, false);
    PickItemPreserves(sem, x, false, side);
    var k := Branch(y.key, side);
    PairEval(sem, e.tag, x, y, PickItem(x, false, side), Index(y.tag, y.base, k), k);
  }

  lemma FirstHarmless(x: Expr, y: Expr)
    requires HarmlessItems([x, y], false, true)
    ensures HarmlessItem(x, false) && HarmlessItem(y, HitsItem(x, false, true) != [])
  {
    assert [x, y][..1] == [x] && [x][..0] == [];
    SingleItem(x, true, true);
  }

  /** The left operand of a binary node is an index access with a ternary index. */
  lemma PickLeftForm(tag: string, x: Expr, y: Expr, side: bool)
    requires TernaryKey(x)
    ensures Hits(Group(tag, true, [x, y]), false) == [x.key] + HitsItem(y, true, true)
    ensures var picked := Pick(Group(tag, true, [x, y]), false, side);
            && picked.Group? && picked.tag == tag && picked.binary && |picked.items| > 2
            && picked.items[0] == Index(x.tag, x.base, Branch(x.key, side)) && picked.items[1] == Branch(x.key, side)
  {
    TwoItems(x, y, true, side);
  }

  lemma ReadsTwo<V>(sem: Semantics<V>, es: seq<Expr>)
    requires |es| >= 2
    ensures Read(true, EvalAll(sem, es)) == [Eval(sem, es[0]), Eval(sem, es[1])]
  {
  }

  lemma PickLeftPair<V>(sem: Semantics<V>, tag: string, x: Expr, y: Expr, side: bool)
    requires TernaryKey(x) && HarmlessPair(x, y)
    requires AllTernary(Hits(Group(tag, true, [x, y]), false))
    requires Agrees(sem, Hits(Group(tag, true, [x, y]), false), side)
    ensures Eval(sem, Pick(Group(tag, true, [x, y]), false, side)) == Eval(sem, Group(tag, true, [x, y]))
  {
    PickLeftForm(tag, x, y, side);
    var e := Group(tag, true, [x, y]);
    var hits, picked := Hits(e, false), Pick(e, false, side);
    assert x.key in hits && (y.Ternary? ==> y in hits) && (TernaryKey(y) ==> y.key in hits);
    RightPickedMeans(sem, y, side);
    hide Hits, Pick, RightPicked, EvalAll;
    assert Eval(sem, Index(x.tag, x.base, Branch(x.key, side))) == Eval(sem, x);
    ReadsTwo(sem, picked.items);
    ReadsTwo(sem, [x, y]);
  }

  /** What is picked for the right operand means what the operand means, if its conditional agrees. */
  lemma RightPickedMeans<V>(sem: Semantics<V>, y: Expr, side: bool)
    requires y.Ternary? ==> Agrees(sem, [y], side)
    requires TernaryKey(y) ==> Agrees(sem, [y.key], side)
    ensures Eval(sem, RightPicked(y, side)) == Eval(sem, y)
  {
    if y.Ternary? {
      assert y in [y];
    } else if TernaryKey(y) {
      assert y.key in [y.key];
    } else {
      OtherRight(y, side);
    }
  }

  lemma OtherRight(y: Expr, side: bool)
    requires !y.Ternary? && !TernaryKey(y)
    ensures RightPicked(y, side) == y
  {
    assert Pick(y, true, side) == y;
  }

  lemma PickPairForm(tag: string, x: Expr, y: Expr, side: bool)
    requires !TernaryKey(x) && TernaryKey(y)
    ensures Hits(Group(tag, true, [x, y]), false) == HitsItem(x, false, false) + [y.key]
    ensures Pick(Group(tag, true, [x, y]), false, side)
         == Group(tag, true, [PickItem(x, false, side), Index(y.tag, y.base, Branch(y.key, side)), Branch(y.key, side)])
  {
    GroupForm(tag, [x, y], side);
    TwoItems(x, y, true, side);
    ItemForms(x, y, side);
    hide Hits, HitsItem, HitsItems, Pick, PickItem, PickItems, Pieces;
    var x', y', k := PickItem(x, false, side), Index(y.tag, y.base, Branch(y.key, side)), Branch(y.key, side);
    assert [x'] + [y', k] == [x', y', k];
  }

  lemma GroupForm(tag: string, items: seq<Expr>, side: bool)
    ensures Hits(Group(tag, true, items), false) == HitsItems(items, false, true)
    ensures Pick(Group(tag, true, items), false, side) == Group(tag, true, PickItems(items, false, true, side))
  {
  }

  lemma ItemForms(x: Expr, y: Expr, side: bool)
    requires !TernaryKey(x) && TernaryKey(y)
    ensures HitsItem(x, false, true) == HitsItem(x, false, false) && HitsItem(y, true, true) == [y.key]
    ensures HitsItem(y, false, true) == [y.key] && Pieces(x, false, true, side) == [PickItem(x, false, side)]
    ensures forall now :: Pieces(y, now, true, side)
                       == [Index(y.tag, y.base, Branch(y.key, side)), Branch(y.key, side)]
  {
  }

  lemma PairEval<V>(sem: Semantics<V>, tag: string, x: Expr, y: Expr, x': Expr, y': Expr, z: Expr)
    requires Eval(sem, x') == Eval(sem, x) && Eval(sem, y') == Eval(sem, y)
    ensures Eval(sem, Group(tag, true, [x', y', z])) == Eval(sem, Group(tag, true, [x, y]))
  {
    ReadsFirstTwo(sem, x', y', z);
    ReadsFirstTwo(sem, x, y, y);
  }

  lemma ReadsFirstTwo<V>(sem: Semantics<V>, x: Expr, y: Expr, z: Expr)
    ensures Read(true, EvalAll(sem, [x, y, z])) == [Eval(sem, x), Eval(sem, y)]
    ensures Read(true, EvalAll(sem, [x, y])) == [Eval(sem, x), Eval(sem, y)]
  {
    var vs := EvalAll(sem, [x, y, z]);
    assert vs[0] == Eval(sem, x) && vs[1] == Eval(sem, y);
    var ws := EvalAll(sem, [x, y]);
    assert ws[0] == Eval(sem, x) && ws[1] == Eval(sem, y);
  }

  // ----- one split -----

  /** All recorded conditionals share the last one's condition, or have equal branches. */
  predicate Consistent(hits: seq<Expr>)
    requires AllTernary(hits)
  {
    forall h :: h in hits ==> h.cond == hits[|hits| - 1].cond || h.onTrue == h.onFalse
  }

  /** The three parts mean, put together, what e means. */
  ghost predicate Preserved<V>(sem: Semantics<V>, e: Expr)
    requires SplitOf(e).Split? && SplitOf(e).condition.Some?
  {
    var s := SplitOf(e);
    Eval(sem, e) == if sem.truth(Eval(sem, s.condition.value)) then Eval(sem, s.onTrue) else Eval(sem, s.onFalse)
  }

  lemma SplitPreserves<V>(sem: Semantics<V>, e: Expr)
    requires Harmless(e, false) && SplitOf(e).Split? && SplitOf(e).condition.Some?
    requires AllTernary(Hits(e, false)) && Consistent(Hits(e, false))
    ensures Preserved(sem, e)
  {
    if !e.Ternary? {
      PickPreserves(sem, e, false, sem.truth(Eval(sem, SplitOf(e).condition.value)));
    }
  }

  /** Without a recorded conditional both sides are e itself. */
  lemma {:induction false} NothingPicked(e: Expr, found: bool, side: bool)
    requires Hits(e, found) == []
    ensures Pick(e, found, side) == e
    decreases e, 0
  {
    if !found {
      match e
      case Wrap(_, inner) => NothingPicked(inner, false, side);
      case Group(_, _, items) => NothingPickedItems(items, false, true, side);
      case Call(_, called, args) =>
        NothingPicked(called, false, side);
        NothingPickedItems(args, false, false, side);
      case _ =>
    }
  }

  lemma {:induction false} NothingPickedItems(items: seq<Expr>, found: bool, inGroup: bool, side: bool)
    requires HitsItems(items, found, inGroup) == []
    ensures PickItems(items, found, inGroup, side) == items
    decreases items, 0
  {
    if items != [] {
      var init, last := items[..|items| - 1], items[|items| - 1];
      NoHitsBefore(items, found, inGroup, side);
      NothingPickedItems(init, found, inGroup, side);
      NothingPicked(last, found, side);
      hide HitsItems, Hits, PickItems, Pick;
      assert init + [last] == items;
    }
  }

  lemma NoHitsBefore(items: seq<Expr>, found: bool, inGroup: bool, side: bool)
    requires items != [] && HitsItems(items, found, inGroup) == []
    ensures var (init, last) := (items[..|items| - 1], items[|items| - 1]);
            && HitsItems(init, found, inGroup) == [] && HitsItem(last, found, inGroup) == []
            && PickItems(items, found, inGroup, side)
               == PickItems(init, found, inGroup, side) + [PickItem(last, found, side)]
            && !last.Ternary? && Hits(last, found) == []
  {
    var (init, last) := (items[..|items| - 1], items[|items| - 1]);
    var before := HitsItems(init, found, inGroup);
    assert HitsItems(items, found, inGroup) == before + HitsItem(last, found || before != [], inGroup);
  }
}
