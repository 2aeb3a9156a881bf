/** What a split does to the number of conditionals, and expressions on which every split is right. */
module TernaryRuns {
  import opened Collections
  import opened ExpressionSyntax
  import opened TernaryMeaning
  import opened TernarySpec
  import opened TernaryTerms

  // ----- what a split does to the number of conditionals -----

  /** The conditionals that leave one side with the recorded ones: each takes its condition and
      its other branch along. */
  function Removed(hits: seq<Expr>, side: bool): nat
    requires AllTernary(hits)
  {
    if hits == [] then 0 else
    var last := hits[|hits| - 1];
    assert last in hits;
    Removed(hits[..|hits| - 1], side) + 1 + Count(last.cond) + Count(Branch(last, !side))
  }

  lemma {:induction false} RemovedAppend(hits: seq<Expr>, more: seq<Expr>, side: bool)
    requires AllTernary(hits) && AllTernary(more)
    ensures AllTernary(hits + more) && Removed(hits + more, side) == Removed(hits, side) + Removed(more, side)
  {
    if more == [] {
      assert hits + more == hits;
    } else {
      var last := |more| - 1;
      assert (hits + more)[..|hits + more| - 1] == hits + more[..last];
      RemovedAppend(hits, more[..last], side);
    }
  }

  lemma RemovedOne(h: Expr, side: bool)
    requires h.Ternary?
    ensures AllTernary([h]) && Removed([h], side) + Count(Branch(h, side)) == Count(h)
  {
    assert [h][..0] == [] && Removed([], side) == 0;
  }

  /** The conditionals that come back: the chosen index of an access with a conditional index is
      put into the list once more. */
  function Again(e: Expr, found: bool, side: bool): nat
    decreases e, 0
  {
    if found then 0 else
    match e
    case Wrap(_, inner) => AgainItem(inner, false, false, side)
    case Group(_, _, items) => AgainItems(items, false, true, side)
    case Call(_, called, args) =>
      AgainItem(called, false, false, side) + AgainItems(args, HitsItem(called, false, false) != [], false, side)
    case _ => 0
  }

  function AgainItem(item: Expr, found: bool, inGroup: bool, side: bool): nat
    decreases item, 1
  {
    if item.Ternary? then 0
    else if inGroup && TernaryKey(item) then Count(Branch(item.key, side))
    else Again(item, found, side)
  }

  function AgainItems(items: seq<Expr>, found: bool, inGroup: bool, side: bool): nat
    decreases items, 0
  {
    if items == [] then 0 else
    var init := items[..|items| - 1];
    var now := found || HitsItems(init, found, inGroup) != [];
    AgainItems(init, found, inGroup, side) + AgainItem(items[|items| - 1], now, inGroup, side)
  }

  lemma {:induction false} CountAllAppend(xs: seq<Expr>, ys: seq<Expr>)
    ensures CountAll(xs + ys) == CountAll(xs) + CountAll(ys)
  {
    if ys == [] {
      assert xs + ys == xs;
    } else {
      assert (xs + ys)[..|xs + ys| - 1] == xs + ys[..|ys| - 1];
      CountAllAppend(xs, ys[..|ys| - 1]);
    }
  }

  /** No conditional is lost or made: what is left on a side and what was removed add up to the
      conditionals of e and those that come back. */
  lemma {:induction false} PickCount(e: Expr, found: bool, side: bool)
    ensures AllTernary(Hits(e, found)) && forall h :: h in Hits(e, found) ==> Count(h) <= Count(e)
    ensures Count(Pick(e, found, side)) + Removed(Hits(e, found), side) == Count(e) + Again(e, found, side)
    decreases e, 0
  {
    if !found {
      match e
      case Wrap(_, inner) => PickItemCount(inner, false, false, side);
      case Group(_, _, items) => PickItemsCount(items, false, true, side);
      case Call(_, called, args) =>
        var first, now := HitsItem(called, false, false), HitsItem(called, false, false) != [];
        PickItemCount(called, false, false, side);
        PickItemsCount(args, now, false, side);
        RemovedAppend(first, HitsItems(args, now, false), side);
      case _ =>
    }
  }

  lemma {:induction false} PickItemCount(item: Expr, found: bool, inGroup: bool, side: bool)
    ensures var hits := HitsItem(item, found, inGroup);
            && AllTernary(hits) && (forall h :: h in hits ==> Count(h) <= Count(item))
            && CountAll(Pieces(item, found, inGroup, side)) + Removed(hits, side)
               == Count(item) + AgainItem(item, found, inGroup, side)
            && (!inGroup ==> CountAll(Pieces(item, found, inGroup, side)) == Count(PickItem(item, found, side)))
    decreases item, 1
  {
    CountPieces(item, found, inGroup, side);
    if item.Ternary? {
      RemovedOne(item, side);
    } else if inGroup && TernaryKey(item) {
      RemovedOne(item.key, side);
    } else {
      PickCount(item, found, side);
    }
  }

  lemma CountPieces(item: Expr, found: bool, inGroup: bool, side: bool)
    ensures CountAll(Pieces(item, found, inGroup, side))
         == if inGroup && TernaryKey(item) then Count(item.base) + 2 * Count(Branch(item.key, side))
            else Count(PickItem(item, found, side))
  {
    if inGroup && TernaryKey(item) {
      var k := Branch(item.key, side);
      var access := Index(item.tag, item.base, k);
      assert [access] + [k] == [access, k];
      CountAllAppend([access], [k]);
      CountOne(access);
      CountOne(k);
    } else {
      CountOne(PickItem(item, found, side));
    }
  }

  lemma CountOne(e: Expr)
    ensures CountAll([e]) == Count(e)
  {
    assert [e][..0] == [];
  }

  lemma {:induction false} PickItemsCount(items: seq<Expr>, found: bool, inGroup: bool, side: bool)
    ensures var hits := HitsItems(items, found, inGroup);
            && AllTernary(hits) && (forall h :: h in hits ==> Count(h) <= CountAll(items))
            && CountAll(PickItems(items, found, inGroup, side)) + Removed(hits, side)
               == CountAll(items) + AgainItems(items, found, inGroup, side)
    decreases items, 0
  {
    if items != [] {
      var init, last := items[..|items| - 1], items[|items| - 1];
      var before := HitsItems(init, found, inGroup);
      var now := found || before != [];
      PickItemsCount(init, found, inGroup, side);
      PickItemCount(last, now, inGroup, side);
      RemovedAppend(before, HitsItem(last, now, inGroup), side);
      CountAllAppend(PickItems(init, found, inGroup, side), Pieces(last, now, inGroup, side));
    }
  }

  /** Less comes back on a side than goes. */
  predicate Lighter(e: Expr, side: bool) {
    HitsAreTernary(e, false);
    e.Ternary? || Again(e, false, side) < Removed(Hits(e, false), side)
  }

  /** The condition holds strictly fewer conditionals than e, and so does a side exactly if less
      comes back on it than goes. */
  lemma SplitShrinks(e: Expr)
    requires SplitOf(e).Split? && SplitOf(e).condition.Some?
    ensures Count(SplitOf(e).condition.value) < Count(e)
    ensures Count(SplitOf(e).onTrue) < Count(e) <==> Lighter(e, true)
    ensures Count(SplitOf(e).onFalse) < Count(e) <==> Lighter(e, false)
  {
    if !e.Ternary? {
      var hits := Hits(e, false);
      HitsAreTernary(e, false);
      assert hits[|hits| - 1] in hits;
      PickCount(e, false, true);
      PickCount(e, false, false);
    }
  }

  /** Without conditional indices in its lists every split makes lighter. */
  lemma PlainIsLighter(e: Expr, side: bool)
    requires NoKeys(e) && (e.Ternary? || Hits(e, false) != [])
    ensures Lighter(e, side)
  {
    HitsAreTernary(e, false);
    NothingAgain(e, false, side);
  }

  lemma {:induction false} NothingAgain(e: Expr, found: bool, side: bool)
    requires NoKeys(e)
    ensures Again(e, found, side) == 0
    decreases e, 0
  {
    if !found {
      match e
      case Wrap(_, inner) => NothingAgain(inner, false, side);
      case Group(_, _, items) => NothingAgainItems(items, false, true, side);
      case Call(_, called, args) =>
        NothingAgain(called, false, side);
        NothingAgainItems(args, HitsItem(called, false, false) != [], false, side);
      case _ =>
    }
  }

  lemma {:induction false} NothingAgainItems(items: seq<Expr>, found: bool, inGroup: bool, side: bool)
    requires forall i :: 0 <= i < |items| ==> NoKeys(items[i]) && !(inGroup && TernaryKey(items[i]))
    ensures AgainItems(items, found, inGroup, side) == 0
    decreases items, 0
  {
    if items != [] {
      var init, last := items[..|items| - 1], items[|items| - 1];
      NothingAgainItems(init, found, inGroup, side);
      NothingAgain(last, found || HitsItems(init, found, inGroup) != [], side);
    }
  }

  /** `x[c ? (d ? p : q) : r] = b`: the true side holds as many conditionals as before. */
  lemma NestedIndexComesBack(tag: string, base: Expr, c: Expr, d: Expr, p: Expr, q: Expr, r: Expr, b: Expr)
    requires base.Leaf? && c.Leaf? && d.Leaf? && p.Leaf? && q.Leaf? && r.Leaf? && b.Leaf?
    ensures var e := Group("=", true, [Index(tag, base, Ternary(c, Ternary(d, p, q), r)), b]);
            SplitOf(e).Split? && SplitOf(e).condition.Some? && Count(SplitOf(e).onTrue) == Count(e) == 2
  {
    var k := Ternary(c, Ternary(d, p, q), r);
    var x := Index(tag, base, k);
    LeftIndexForm("=", x, b, true);
    CountAllAppend([x], [b]);
    CountOne(x);
    CountOne(b);
    assert Count(k.onTrue) == 1;
    assert [x] + [b] == [x, b] && Count(k) == 2;
    var x' := Index(tag, base, k.onTrue);
    CountAllAppend([x'] + [k.onTrue], [b]);
    CountAllAppend([x'], [k.onTrue]);
    CountOne(x');
    CountOne(k.onTrue);
    assert [x'] + [k.onTrue] + [b] == [x', k.onTrue, b];
  }

  // ----- expressions on which every split is right -----

  /** Some conditional stands outside every index access. */
  predicate HasOpen(e: Expr)
    decreases e
  {
    match e
    case Wrap(_, inner) => HasOpen(inner)
    case Group(_, _, items) => exists i :: 0 <= i < |items| && HasOpen(items[i])
    case Call(_, called, args) => HasOpen(called) || exists i :: 0 <= i < |args| && HasOpen(args[i])
    case Ternary(_, _, _) => true
    case _ => false
  }

  predicate NoneOpen(items: seq<Expr>) { forall i :: 0 <= i < |items| ==> !HasOpen(items[i]) }

  predicate NoTernary(items: seq<Expr>) { forall i :: 0 <= i < |items| ==> !items[i].Ternary? }

  /** After an item with a conditional inside, no later item is itself a conditional. */
  predicate OrderedList(items: seq<Expr>) {
    forall i, j :: 0 <= i < j < |items| && HasOpen(items[i]) ==> !items[j].Ternary?
  }

  /** Every list is ordered, no index access holds a conditional, and the splitter knows
      every expression class that occurs. */
  predicate Ordered(e: Expr)
    decreases e
  {
    match e
    case Leaf(_) => true
    case Index(_, base, key) => Count(base) == 0 && Count(key) == 0
    case Wrap(_, inner) => Ordered(inner)
    case Group(_, binary, items) =>
      && (binary ==> |items| == 2)
      && OrderedList(items)
      && forall i :: 0 <= i < |items| ==> Ordered(items[i])
    case Call(_, called, args) =>
      && (HasOpen(called) ==> NoTernary(args))
      && OrderedList(args)
      && Ordered(called)
      && forall i :: 0 <= i < |args| ==> Ordered(args[i])
    case Ternary(cond, onTrue, onFalse) => Ordered(cond) && Ordered(onTrue) && Ordered(onFalse)
    case Opaque(_) => false
  }

  predicate AllOrdered(items: seq<Expr>) { forall i :: 0 <= i < |items| ==> Ordered(items[i]) }

  lemma {:induction false} OrderedIsPlain(e: Expr)
    requires Ordered(e)
    ensures NoKeys(e)
    decreases e
  {
    match e
    case Wrap(_, inner) => OrderedIsPlain(inner);
    case Group(_, _, items) => forall i | 0 <= i < |items| ensures NoKeys(items[i]) { OrderedIsPlain(items[i]); }
    case Call(_, called, args) =>
      OrderedIsPlain(called);
      forall i | 0 <= i < |args| ensures NoKeys(args[i]) { OrderedIsPlain(args[i]); }
    case _ =>
  }

  lemma {:induction false} OrderedIsHarmless(e: Expr, found: bool)
    requires Ordered(e)
    ensures Harmless(e, found)
    decreases e, 0
  {
    match e
    case Wrap(_, inner) => OrderedIsHarmless(inner, false);
    case Group(_, _, items) => OrderedAreHarmless(items, false, true);
    case Call(_, called, args) =>
      OrderedIsHarmless(called, false);
      OrderedAreHarmless(args, HitsItem(called, false, false) != [], false);
    case _ =>
  }

  lemma {:induction false} OrderedAreHarmless(items: seq<Expr>, found: bool, inGroup: bool)
    requires AllOrdered(items)
    ensures HarmlessItems(items, found, inGroup)
    decreases items, 0
  {
    if items != [] {
      var init := items[..|items| - 1];
      OrderedAreHarmless(init, found, inGroup);
      OrderedIsHarmless(items[|items| - 1], found || HitsItems(init, found, inGroup) != []);
    }
  }

  lemma {:induction false} ClosedIsFree(e: Expr)
    requires Ordered(e) && !HasOpen(e)
    ensures Count(e) == 0
    decreases e
  {
    match e
    case Wrap(_, inner) => ClosedIsFree(inner);
    case Group(_, _, items) => ClosedAreFree(items);
    case Call(_, called, args) => ClosedIsFree(called); ClosedAreFree(args);
    case _ =>
  }

  lemma {:induction false} ClosedAreFree(items: seq<Expr>)
    requires AllOrdered(items) && NoneOpen(items)
    ensures CountAll(items) == 0
    decreases items
  {
    if items != [] {
      ClosedAreFree(items[..|items| - 1]);
      ClosedIsFree(items[|items| - 1]);
    }
  }

  /** What one traversal does to an ordered expression: it raises nothing, records exactly
      one conditional when there is one, and leaves an ordered expression on each side. */
  lemma {:induction false} PickOrdered(e: Expr, found: bool, side: bool)
    requires Ordered(e) && !e.Ternary?
    ensures !Raises(e, found)
    ensures |Hits(e, found)| == if !found && HasOpen(e) then 1 else 0
    ensures forall h :: h in Hits(e, found) ==> h.Ternary? && Ordered(h)
    ensures Ordered(Pick(e, found, side))
    ensures HasOpen(Pick(e, found, side)) ==> HasOpen(e)
    ensures !Pick(e, found, side).Ternary?
    decreases e, 0
  {
    if !found {
      match e
      case Wrap(_, inner) => PickOrderedItem(inner, false, false, side);
      case Group(_, _, items) => PickOrderedItems(items, false, true, side);
      case Call(_, called, args) =>
        PickOrderedItem(called, false, false, side);
        PickOrderedItems(args, HitsItem(called, false, false) != [], false, side);
      case _ =>
    }
  }

  lemma {:induction false} PickOrderedItem(item: Expr, found: bool, inGroup: bool, side: bool)
    requires Ordered(item) && !(found && item.Ternary?)
    ensures !TernaryKey(item) && !RaisesItem(item, found, inGroup)
    ensures |HitsItem(item, found, inGroup)| == if !found && HasOpen(item) then 1 else 0
    ensures forall h :: h in HitsItem(item, found, inGroup) ==> h.Ternary? && Ordered(h)
    ensures Ordered(PickItem(item, found, side))
    ensures HasOpen(PickItem(item, found, side)) ==> HasOpen(item)
    ensures found ==> PickItem(item, found, side) == item
    ensures !item.Ternary? ==> !PickItem(item, found, side).Ternary?
    decreases item, 1
  {
    if !item.Ternary? { PickOrdered(item, found, side); }
  }

  lemma NoneOpenSnoc(items: seq<Expr>)
    requires items != []
    ensures NoneOpen(items) == (NoneOpen(items[..|items| - 1]) && !HasOpen(items[|items| - 1]))
  {
    var init := items[..|items| - 1];
    assert forall i :: 0 <= i < |init| ==> init[i] == items[i];
    if NoneOpen(items) {
      assert forall i :: 0 <= i < |init| ==> !HasOpen(items[i]) && !HasOpen(init[i]);
    }
  }

  /** picked stands for items after one traversal. */
  predicate Follows(picked: seq<Expr>, items: seq<Expr>) {
    && |picked| == |items|
    && AllOrdered(picked) && OrderedList(picked)
    && (forall i :: 0 <= i < |items| && HasOpen(picked[i]) ==> HasOpen(items[i]))
    && (NoTernary(items) ==> NoTernary(picked))
  }

  lemma FollowsSnoc(picked: seq<Expr>, items: seq<Expr>, p: Expr, item: Expr)
    requires OrderedList(items + [item]) && Follows(picked, items)
    requires Ordered(p) && (HasOpen(p) ==> HasOpen(item)) && (!item.Ternary? ==> !p.Ternary?)
    ensures Follows(picked + [p], items + [item])
  {
    var all, now := items + [item], picked + [p];
    forall i, j | 0 <= i < j < |now| && HasOpen(now[i]) ensures !now[j].Ternary? {
      if j == |items| {
        assert HasOpen(all[i]) && !all[j].Ternary?;
      }
    }
    if NoTernary(all) {
      forall i | 0 <= i < |items| ensures !items[i].Ternary? { assert !all[i].Ternary?; }
      assert !all[|items|].Ternary?;
    }
  }

  lemma NoTernaryAfterOpen(items: seq<Expr>)
    requires OrderedList(items) && items != [] && !NoneOpen(items[..|items| - 1])
    ensures !items[|items| - 1].Ternary?
  {
    var k :| 0 <= k < |items| - 1 && HasOpen(items[..|items| - 1][k]);
    assert HasOpen(items[k]);
  }

  lemma {:induction false} PickOrderedItems(items: seq<Expr>, found: bool, inGroup: bool, side: bool)
    requires AllOrdered(items) && OrderedList(items) && (found ==> NoTernary(items))
    ensures !RaisesItems(items, found, inGroup)
    ensures |HitsItems(items, found, inGroup)| == if !found && !NoneOpen(items) then 1 else 0
    ensures forall h :: h in HitsItems(items, found, inGroup) ==> h.Ternary? && Ordered(h)
    ensures Follows(PickItems(items, found, inGroup, side), items)
    decreases items, 0
  {
    if items != [] {
      var init, last := items[..|items| - 1], items[|items| - 1];
      var before := HitsItems(init, found, inGroup);
      assert items == init + [last];
      PickOrderedItems(init, found, inGroup, side);
      if !NoneOpen(init) { NoTernaryAfterOpen(items); }
      PickOrderedItem(last, found || before != [], inGroup, side);
      NoneOpenSnoc(items);
      FollowsSnoc(PickItems(init, found, inGroup, side), init, PickItem(last, found || before != [], side), last);
    }
  }

  lemma SplitOrdered(e: Expr)
    requires Ordered(e) && HasOpen(e)
    ensures var s := SplitOf(e);
            && s.Split? && s.condition.Some?
            && Ordered(s.condition.value) && Ordered(s.onTrue) && Ordered(s.onFalse)
    ensures forall h, k :: h in Hits(e, false) && k in Hits(e, false) ==> h == k
  {
    if !e.Ternary? {
      PickOrdered(e, false, true);
      PickOrdered(e, false, false);
      var hits := Hits(e, false);
      hide Pick, Hits, Raises, HasOpen;
      assert hits[0] in hits;
    }
  }

  /** The parts of an ordered expression hold fewer conditionals. */
  lemma OrderedSteps(e: Expr)
    requires Ordered(e) && Count(e) > 0
    ensures var s := SplitOf(e);
            && s.Split? && s.condition.Some?
            && Ordered(s.condition.value) && Ordered(s.onTrue) && Ordered(s.onFalse)
            && Count(s.condition.value) < Count(e) && Count(s.onTrue) < Count(e) && Count(s.onFalse) < Count(e)
  {
    if !HasOpen(e) { ClosedIsFree(e); }
    SplitOrdered(e);
    OrderedIsPlain(e);
    HasHits(e);
    PlainIsLighter(e, true);
    PlainIsLighter(e, false);
    SplitShrinks(e);
  }

  lemma HasHits(e: Expr)
    requires SplitOf(e).Split? && SplitOf(e).condition.Some?
    ensures e.Ternary? || Hits(e, false) != []
  {
  }

  lemma LeftIndexForm(tag: string, x: Expr, y: Expr, side: bool)
    requires TernaryKey(x) && y.Leaf?
    ensures var e := Group(tag, true, [x, y]);
            && Hits(e, false) == [x.key] && !Raises(e, false)
            && Pick(e, false, side)
               == Group(tag, true, [Index(x.tag, x.base, Branch(x.key, side)), Branch(x.key, side), y])
  {
    TwoItems(x, y, true, side);
    assert Pick(y, true, side) == y;
    assert PickItem(y, true, side) == y;
    assert Pieces(y, true, true, side) == [y];
  }

  /** `x[c ? one : two] = b`: the extra list entry becomes the right operand, so the true
      side assigns `one` instead of b. */
  lemma LeftIndexIsSplitWrongly(x: Expr, b: Expr)
    requires TernaryKey(x) && x.base.Leaf? && x.key.cond.Leaf? && x.key.onTrue.Leaf? && b.Leaf?
    requires x.key.onTrue != b
    ensures var e := Group("=", true, [x, b]);
            && SplitOf(e).Split? && SplitOf(e).condition == Some(x.key.cond)
            && SplitOf(e).onTrue == Group("=", true, [Index(x.tag, x.base, x.key.onTrue), x.key.onTrue, b])
            && !Preserved(Term({x.key.cond}), e)
  {
    var e, sem := Group("=", true, [x, b]), Term({x.key.cond});
    LeftIndexForm("=", x, b, true);
    var left := Index(x.tag, x.base, x.key.onTrue);
    ReadsFirstTwo(sem, left, x.key.onTrue, b);
    ReadsFirstTwo(sem, x, b, b);
    var meant := [Eval(sem, x), Eval(sem, b)];
    var got := [Eval(sem, left), Eval(sem, x.key.onTrue)];
    assert meant[1] == b && got[1] == x.key.onTrue;
    assert Eval(sem, e) == Group("=", true, meant) && Eval(sem, SplitOf(e).onTrue) == Group("=", true, got);
  }
}
