/** What splitting a ternary produces, as functions on expression values. `found` says
    whether a condition has already been recorded, which stops the traversal. */
module TernarySpec {
  import opened Collections
  import opened ExpressionSyntax

  /** The conditional expressions whose condition gets recorded, in traversal order.
      Each one overwrites the previous. */
  function Hits(e: Expr, found: bool): seq<Expr>
    decreases e, 0
  {
    if found then [] else
    match e
    case Wrap(_, inner) => HitsItem(inner, false, false)
    case Group(_, _, items) => HitsItems(items, false, true)
    case Call(_, called, args) =>
      var first := HitsItem(called, false, false);
      first + HitsItems(args, first != [], false)
    case _ => []
  }

  function HitsItem(item: Expr, found: bool, inGroup: bool): seq<Expr>
    decreases item, 1
  {
    if item.Ternary? then [item]
    else if inGroup && TernaryKey(item) then [item.key]
    else Hits(item, found)
  }

  function HitsItems(items: seq<Expr>, found: bool, inGroup: bool): seq<Expr>
    decreases items, 0
  {
    if items == [] then [] else
    var before := HitsItems(items[..|items| - 1], found, inGroup);
    before + HitsItem(items[|items| - 1], found || before != [], inGroup)
  }

  function Branch(t: Expr, side: bool): Expr
    requires t.Ternary?
  {
    if side then t.onTrue else t.onFalse
  }

  /** The expression left on one side of the split. */
  function Pick(e: Expr, found: bool, side: bool): Expr
    decreases e, 0
  {
    if found then e else
    match e
    case Wrap(tag, inner) => Wrap(tag, PickItem(inner, false, side))
    case Group(tag, binary, items) => Group(tag, binary, PickItems(items, false, true, side))
    case Call(tag, called, args) =>
      Call(tag, PickItem(called, false, side),
           PickItems(args, HitsItem(called, false, false) != [], false, side))
    case _ => e
  }

  function PickItem(item: Expr, found: bool, side: bool): Expr
    decreases item, 1
  {
    if item.Ternary? then Branch(item, side) else Pick(item, found, side)
  }

  /** What one item contributes to its list: an index access with a ternary index
      contributes both the access and, once more, the chosen index. */
  function Pieces(item: Expr, found: bool, inGroup: bool, side: bool): seq<Expr>
    decreases item, 2
  {
    if inGroup && TernaryKey(item) then
      [Index(item.tag, item.base, Branch(item.key, side)), Branch(item.key, side)]
    else [PickItem(item, found, side)]
  }

  function PickItems(items: seq<Expr>, found: bool, inGroup: bool, side: bool): seq<Expr>
    decreases items, 0
  {
    if items == [] then [] else
    PickItems(items[..|items| - 1], found, inGroup, side)
    + Pieces(items[|items| - 1], found || HitsItems(items[..|items| - 1], found, inGroup) != [], inGroup, side)
  }

  /** Whether the traversal reaches an expression it has no case for. */
  predicate Raises(e: Expr, found: bool)
    decreases e, 0
  {
    !found &&
    match e
    case Wrap(_, inner) => RaisesItem(inner, false, false)
    case Group(_, _, items) => RaisesItems(items, false, true)
    case Call(_, called, args) =>
      || RaisesItem(called, false, false)
      || RaisesItems(args, HitsItem(called, false, false) != [], false)
    case Ternary(_, _, _) => true
    case Opaque(_) => true
    case _ => false
  }

  predicate RaisesItem(item: Expr, found: bool, inGroup: bool)
    decreases item, 1
  {
    !item.Ternary? && !(inGroup && TernaryKey(item)) && Raises(item, found)
  }

  predicate RaisesItems(items: seq<Expr>, found: bool, inGroup: bool)
    decreases items, 0
  {
    items != [] &&
    (|| RaisesItems(items[..|items| - 1], found, inGroup)
     || RaisesItem(items[|items| - 1], found || HitsItems(items[..|items| - 1], found, inGroup) != [], inGroup))
  }

  datatype SplitResult = Raised | Split(condition: Option<Expr>, onTrue: Expr, onFalse: Expr)

  /** The three expressions held by the splitter once it has been constructed. */
  function SplitOf(e: Expr): SplitResult {
    if e.Ternary? then Split(Some(e.cond), e.onTrue, e.onFalse)
    else if Raises(e, false) then Raised
    else
      var hits := Hits(e, false);
      HitsAreTernary(e, false);
      Split(if hits == [] then None else Some(hits[|hits| - 1].cond), Pick(e, false, true), Pick(e, false, false))
  }

  predicate AllTernary(hits: seq<Expr>) { forall h :: h in hits ==> h.Ternary? }

  lemma HitsAreTernary(e: Expr, found: bool)
    ensures AllTernary(Hits(e, found))
    decreases e, 0
  {
    if !found {
      match e
      case Wrap(_, inner) => if !inner.Ternary? { HitsAreTernary(inner, false); }
      case Group(_, _, items) => HitsItemsAreTernary(items, false, true);
      case Call(_, called, args) =>
        if !called.Ternary? { HitsAreTernary(called, false); }
        HitsItemsAreTernary(args, HitsItem(called, false, false) != [], false);
      case _ =>
    }
  }

  lemma HitsItemsAreTernary(items: seq<Expr>, found: bool, inGroup: bool)
    ensures AllTernary(HitsItems(items, found, inGroup))
    decreases items, 0
  {
    if items != [] {
      HitsItemsAreTernary(items[..|items| - 1], found, inGroup);
      HitsAreTernary(items[|items| - 1], found || HitsItems(items[..|items| - 1], found, inGroup) != []);
    }
  }
}
