/** What the traversal of the splitter comes to, and what it leaves alone. */
module TernaryReach {
  import opened Collections
  import opened ExpressionSyntax
  import opened TernaryMeaning
  import opened TernaryRuns
  import opened TernarySpec
  import opened TernaryTerms

  /** x is e or an operand below it; the parts of an index access do not count. */
  ghost predicate Operand(e: Expr, x: Expr)
    decreases e
  {
    x == e ||
    match e
    case Wrap(_, inner) => Operand(inner, x)
    case Group(_, _, items) => exists i :: 0 <= i < |items| && Operand(items[i], x)
    case Call(_, called, args) => Operand(called, x) || exists i :: 0 <= i < |args| && Operand(args[i], x)
    case _ => false
  }

  ghost predicate HoldsUnknown(e: Expr) {
    exists x :: Operand(e, x) && x.Opaque?
  }

  ghost predicate SomeUnknown(items: seq<Expr>) {
    exists i :: 0 <= i < |items| && HoldsUnknown(items[i])
  }

  lemma UnknownParts(e: Expr)
    ensures match e
            case Wrap(_, inner) => HoldsUnknown(e) <==> HoldsUnknown(inner)
            case Group(_, _, items) => HoldsUnknown(e) <==> SomeUnknown(items)
            case Call(_, called, args) => HoldsUnknown(e) <==> HoldsUnknown(called) || SomeUnknown(args)
            case _ => HoldsUnknown(e) <==> e.Opaque?
  {
    match e
    case Wrap(_, inner) =>
      forall x | Operand(inner, x) ensures Operand(e, x) {
      }
    case Group(_, _, items) =>
      forall i, x | 0 <= i < |items| && Operand(items[i], x) ensures Operand(e, x) {
      }
    case Call(_, called, args) =>
      forall i, x | 0 <= i < |args| && Operand(args[i], x) ensures Operand(e, x) {
      }
      forall x | Operand(called, x) ensures Operand(e, x) {
      }
    case _ => assert Operand(e, e);
  }

  lemma SomeUnknownSnoc(items: seq<Expr>)
    requires items != []
    ensures SomeUnknown(items) <==> SomeUnknown(items[..|items| - 1]) || HoldsUnknown(items[|items| - 1])
  {
    var init := items[..|items| - 1];
    assert forall i :: 0 <= i < |init| ==> init[i] == items[i];
    if SomeUnknown(init) {
      var i :| 0 <= i < |init| && HoldsUnknown(init[i]);
      assert HoldsUnknown(items[i]);
    }
    if i :| 0 <= i < |items| && HoldsUnknown(items[i]) {
      assert i < |init| ==> HoldsUnknown(init[i]);
    }
  }

  /** An expression that is no conditional raises only over an operand of an unknown class. While
      nothing gets recorded, any such operand raises. */
  lemma {:induction false} RaisesOverUnknown(e: Expr, found: bool)
    requires !e.Ternary?
    ensures Raises(e, found) ==> !found && HoldsUnknown(e)
    ensures !found && Hits(e, found) == [] && HoldsUnknown(e) ==> Raises(e, found)
    decreases e, 0
  {
    if !found {
      UnknownParts(e);
      match e
      case Wrap(_, inner) => ItemRaisesOverUnknown(inner, false, false);
      case Group(_, _, items) => ItemsRaiseOverUnknown(items, false, true);
      case Call(_, called, args) =>
        ItemRaisesOverUnknown(called, false, false);
        ItemsRaiseOverUnknown(args, HitsItem(called, false, false) != [], false);
      case _ =>
    }
  }

  lemma {:induction false} ItemRaisesOverUnknown(item: Expr, found: bool, inGroup: bool)
    ensures RaisesItem(item, found, inGroup) ==> !found && HoldsUnknown(item)
    ensures !found && HitsItem(item, found, inGroup) == [] && HoldsUnknown(item) ==> RaisesItem(item, found, inGroup)
    decreases item, 1
  {
    if !item.Ternary? { RaisesOverUnknown(item, found); }
  }

  lemma {:induction false} ItemsRaiseOverUnknown(items: seq<Expr>, found: bool, inGroup: bool)
    ensures RaisesItems(items, found, inGroup) ==> !found && SomeUnknown(items)
    ensures !found && HitsItems(items, found, inGroup) == [] && SomeUnknown(items)
            ==> RaisesItems(items, found, inGroup)
    decreases items, 0
  {
    if items != [] {
      var init, last := items[..|items| - 1], items[|items| - 1];
      var now := found || HitsItems(init, found, inGroup) != [];
      ItemsRaiseOverUnknown(init, found, inGroup);
      ItemRaisesOverUnknown(last, now, inGroup);
      hide HoldsUnknown, SomeUnknown, RaisesItem, HitsItem;
      SomeUnknownSnoc(items);
    }
  }

  /** Without conditionals the splitter gives up exactly on an operand of an unknown class. */
  lemma RaisedIffUnknown(e: Expr)
    requires !HasOpen(e) && NoKeys(e)
    ensures SplitOf(e).Raised? <==> HoldsUnknown(e)
    ensures SplitOf(e).Split? ==> SplitOf(e) == Split(None, e, e)
  {
    NothingRecorded(e, false, true);
    NothingRecorded(e, false, false);
    RaisesOverUnknown(e, false);
  }

  lemma {:induction false} NothingRecorded(e: Expr, found: bool, side: bool)
    requires !HasOpen(e) && NoKeys(e)
    ensures !e.Ternary? && Hits(e, found) == [] && Pick(e, found, side) == e
    decreases e, 0
  {
    if !found {
      match e
      case Wrap(_, inner) => NothingRecorded(inner, false, side);
      case Group(_, _, items) => NoneRecorded(items, false, true, side);
      case Call(_, called, args) =>
        NothingRecorded(called, false, side);
        NoneRecorded(args, false, false, side);
      case _ =>
    }
  }

  lemma {:induction false} NoneRecorded(items: seq<Expr>, found: bool, inGroup: bool, side: bool)
    requires forall i :: 0 <= i < |items| ==>
               !HasOpen(items[i]) && NoKeys(items[i]) && !(inGroup && TernaryKey(items[i]))
    ensures HitsItems(items, found, inGroup) == [] && PickItems(items, found, inGroup, side) == items
    decreases items, 0
  {
    hide HasOpen, NoKeys, Hits, Pick, HitsItem, Pieces;
    if items != [] {
      var init, last := items[..|items| - 1], items[|items| - 1];
      assert forall i :: 0 <= i < |init| ==> init[i] == items[i];
      NoneRecorded(init, found, inGroup, side);
      NothingRecorded(last, found, side);
      OneLeft(last, found, inGroup, side);
      assert items == init + [last];
    }
  }

  lemma OneLeft(item: Expr, found: bool, inGroup: bool, side: bool)
    requires !item.Ternary? && !(inGroup && TernaryKey(item))
    requires Hits(item, found) == [] && Pick(item, found, side) == item
    ensures HitsItem(item, found, inGroup) == [] && Pieces(item, found, inGroup, side) == [item]
  {
  }

  // ----- once a condition is recorded -----

  /** `(c ? a : b) + (d ? x : y)`: the later conditional is resolved as well, and its condition
      replaces the earlier one. */
  lemma LaterConditionalOverwrites(tag: string, c: Expr, a: Expr, b: Expr, d: Expr, x: Expr, y: Expr)
    ensures SplitOf(Group(tag, true, [Ternary(c, a, b), Ternary(d, x, y)]))
         == Split(Some(d), Group(tag, true, [a, x]), Group(tag, true, [b, y]))
  {
    TwoItems(Ternary(c, a, b), Ternary(d, x, y), true, true);
    TwoItems(Ternary(c, a, b), Ternary(d, x, y), true, false);
    assert [a] + [x] == [a, x] && [b] + [y] == [b, y];
  }

  /** `(c ? a : b) + -(d ? x : y)`: a conditional further down stays for the next split. */
  lemma LaterNestedConditionalStays(tag: string, c: Expr, a: Expr, b: Expr, wrap: string, inner: Expr)
    ensures SplitOf(Group(tag, true, [Ternary(c, a, b), Wrap(wrap, inner)]))
         == Split(Some(c), Group(tag, true, [a, Wrap(wrap, inner)]), Group(tag, true, [b, Wrap(wrap, inner)]))
  {
    var w := Wrap(wrap, inner);
    Untouched(w, true);
    TwoItems(Ternary(c, a, b), w, true, true);
    TwoItems(Ternary(c, a, b), w, true, false);
    assert [a] + [w] == [a, w] && [b] + [w] == [b, w];
  }

  /** `(c ? f : g)(-(d ? x : y))`: nor does a call look into its arguments once the called
      expression has recorded a condition. */
  lemma ArgumentOfConditionalCallStays(tag: string, c: Expr, f: Expr, g: Expr, wrap: string, inner: Expr)
    ensures SplitOf(Call(tag, Ternary(c, f, g), [Wrap(wrap, inner)]))
         == Split(Some(c), Call(tag, f, [Wrap(wrap, inner)]), Call(tag, g, [Wrap(wrap, inner)]))
  {
    var w := Wrap(wrap, inner);
    Untouched(w, false);
    OnlyItem(w, false, true);
    OnlyItem(w, false, false);
    ConditionalCallForm(tag, Ternary(c, f, g), [w], true);
    ConditionalCallForm(tag, Ternary(c, f, g), [w], false);
    hide Hits, Pick, Raises, HitsItems, PickItems, RaisesItems, Pieces, HitsItem, RaisesItem;
  }

  lemma ConditionalCallForm(tag: string, t: Expr, args: seq<Expr>, side: bool)
    requires t.Ternary?
    ensures var e := Call(tag, t, args);
            && Hits(e, false) == [t] + HitsItems(args, true, false)
            && Pick(e, false, side) == Call(tag, Branch(t, side), PickItems(args, true, false, side))
            && Raises(e, false) == RaisesItems(args, true, false)
  {
    hide HitsItems, PickItems, RaisesItems;
    assert HitsItem(t, false, false) == [t];
  }

  /** With a condition recorded an operand that is no conditional stays as it is. */
  lemma Untouched(item: Expr, inGroup: bool)
    requires !item.Ternary? && !TernaryKey(item)
    ensures HitsItem(item, true, inGroup) == [] && !RaisesItem(item, true, inGroup)
    ensures Pieces(item, true, inGroup, true) == [item] == Pieces(item, true, inGroup, false)
  {
    assert Hits(item, true) == [] && !Raises(item, true);
    assert Pick(item, true, true) == item == Pick(item, true, false);
  }

  lemma OnlyItem(item: Expr, inGroup: bool, side: bool)
    ensures HitsItems([item], true, inGroup) == HitsItem(item, true, inGroup)
    ensures PickItems([item], true, inGroup, side) == Pieces(item, true, inGroup, side)
    ensures RaisesItems([item], true, inGroup) == RaisesItem(item, true, inGroup)
  {
    hide HitsItem, Pieces, RaisesItem;
    assert [item][..0] == [];
    assert HitsItems([], true, inGroup) == [] && PickItems([], true, inGroup, side) == [];
    assert !RaisesItems([], true, inGroup);
  }
}
