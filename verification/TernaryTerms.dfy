/** Exactly when one split preserves meaning, compared in the semantics of terms. */
module TernaryTerms {
  import opened Collections
  import opened ExpressionSyntax
  import opened TernaryMeaning
  import opened TernarySpec

  /** The constructors' guarantee that assignments and binary operations have two operands. */
  predicate Formed(e: Expr)
    decreases e
  {
    match e
    case Index(_, base, key) => Formed(base) && Formed(key)
    case Wrap(_, inner) => Formed(inner)
    case Group(_, binary, items) => (binary ==> |items| == 2) && forall i :: 0 <= i < |items| ==> Formed(items[i])
    case Call(_, called, args) => Formed(called) && forall i :: 0 <= i < |args| ==> Formed(args[i])
    case Ternary(cond, onTrue, onFalse) => Formed(cond) && Formed(onTrue) && Formed(onFalse)
    case _ => true
  }

  /** The term semantics: an expression means itself, and only the members of `truths` count as
      true. */
  function Term(truths: set<Expr>): Semantics<Expr> {
    Semantics(tag => Leaf(tag), (tag, b, k) => Index(tag, b, k), (tag, v) => Wrap(tag, v),
              (tag, binary, vs) => Group(tag, binary, vs), (tag, c, vs) => Call(tag, c, vs),
              tag => Opaque(tag), v => v in truths)
  }

  lemma {:induction false} TermEval(truths: set<Expr>, e: Expr)
    requires Formed(e) && Count(e) == 0
    ensures Eval(Term(truths), e) == e
    decreases e
  {
    match e
    case Index(_, base, key) => TermEval(truths, base); TermEval(truths, key);
    case Wrap(_, inner) => TermEval(truths, inner);
    case Group(_, _, items) => TermEvalAll(truths, items);
    case Call(_, called, args) => TermEval(truths, called); TermEvalAll(truths, args);
    case _ =>
  }

  lemma {:induction false} TermEvalAll(truths: set<Expr>, es: seq<Expr>)
    requires CountAll(es) == 0 && forall i :: 0 <= i < |es| ==> Formed(es[i])
    ensures EvalAll(Term(truths), es) == es
    decreases es
  {
    forall i | 0 <= i < |es| ensures Eval(Term(truths), es[i]) == es[i] {
      CountAllAt(es, i);
      TermEval(truths, es[i]);
    }
  }

  /** No list visited by the splitter holds an index access with a ternary index. */
  predicate NoKeys(e: Expr)
    decreases e
  {
    match e
    case Wrap(_, inner) => NoKeys(inner)
    case Group(_, _, items) => forall i :: 0 <= i < |items| ==> NoKeys(items[i]) && !TernaryKey(items[i])
    case Call(_, called, args) => NoKeys(called) && forall i :: 0 <= i < |args| ==> NoKeys(args[i])
    case _ => true
  }

  /** Under the term semantics the conditional takes this side, or its side does not matter. */
  predicate AgreesOne(truths: set<Expr>, h: Expr, side: bool)
    requires h.Ternary?
  {
    || (Eval(Term(truths), h.cond) in truths) == side
    || Eval(Term(truths), h.onTrue) == Eval(Term(truths), h.onFalse)
  }

  /** What one side shows, under the term semantics, if it means what e means: every recorded
      conditional agrees, no tuple has grown, and next to a conditional index on the left stands
      the meaning of the right operand. */
  predicate Shows(truths: set<Expr>, e: Expr, found: bool, side: bool)
    decreases e, 0
  {
    found ||
    match e
    case Wrap(_, inner) => ShowsItem(truths, inner, false, side)
    case Group(_, binary, items) =>
      if binary && |items| == 2 && TernaryKey(items[0]) then
        && AgreesOne(truths, items[0].key, side)
        && Eval(Term(truths), Branch(items[0].key, side)) == Eval(Term(truths), items[1])
      else if binary && |items| == 2 && TernaryKey(items[1]) then
        ShowsItem(truths, items[0], false, side) && AgreesOne(truths, items[1].key, side)
      else
        (forall i :: 0 <= i < |items| ==> !TernaryKey(items[i])) && ShowsItems(truths, items, false, true, side)
    case Call(_, called, args) =>
      && ShowsItem(truths, called, false, side)
      && ShowsItems(truths, args, HitsItem(called, false, false) != [], false, side)
    case _ => true
  }

  predicate ShowsItem(truths: set<Expr>, item: Expr, found: bool, side: bool)
    decreases item, 1
  {
    if item.Ternary? then AgreesOne(truths, item, side) else Shows(truths, item, found, side)
  }

  predicate ShowsItems(truths: set<Expr>, items: seq<Expr>, found: bool, inGroup: bool, side: bool)
    decreases items, 0
  {
    items == [] ||
    (&& ShowsItems(truths, items[..|items| - 1], found, inGroup, side)
     && var now := found || HitsItems(items[..|items| - 1], found, inGroup) != [];
        ShowsItem(truths, items[|items| - 1], now, side))
  }

  /** A side that means what e means under the term semantics shows all that. */
  lemma {:induction false} PickReflects(truths: set<Expr>, e: Expr, found: bool, side: bool)
    requires Formed(e) && Eval(Term(truths), Pick(e, found, side)) == Eval(Term(truths), e)
    ensures Shows(truths, e, found, side)
    decreases e, 0
  {
    if !found {
      match e
      case Wrap(_, inner) => PickReflectsItem(truths, inner, false, side);
      case Group(tag, binary, items) =>
        if binary {
          assert items == [items[0], items[1]];
          PickReflectsPair(truths, tag, items[0], items[1], side);
        } else {
          PickGrows(items, false, side);
          PickReflectsItems(truths, items, false, true, side);
        }
      case Call(_, called, args) =>
        PickReflectsItem(truths, called, false, side);
        PickReflectsItems(truths, args, HitsItem(called, false, false) != [], false, side);
      case _ =>
    }
  }

  lemma {:induction false} PickReflectsItem(truths: set<Expr>, item: Expr, found: bool, side: bool)
    requires Formed(item) && Eval(Term(truths), PickItem(item, found, side)) == Eval(Term(truths), item)
    ensures ShowsItem(truths, item, found, side)
    decreases item, 1
  {
    if !item.Ternary? { PickReflects(truths, item, found, side); }
  }

  lemma {:induction false} PickReflectsPair(truths: set<Expr>, tag: string, x: Expr, y: Expr, side: bool)
    requires Formed(x) && Formed(y)
    requires var e := Group(tag, true, [x, y]); Eval(Term(truths), Pick(e, false, side)) == Eval(Term(truths), e)
    ensures Shows(truths, Group(tag, true, [x, y]), false, side)
    decreases [x, y], 1
  {
    if TernaryKey(x) {
      LeftReflects(truths, tag, x, y, side);
    } else if TernaryKey(y) {
      RightReflects(truths, tag, x, y, side);
      PickReflectsItem(truths, x, false, side);
    } else {
      NoGrowth([x, y], false, true, side);
      PickReflectsItems(truths, [x, y], false, true, side);
    }
  }

  lemma LeftReflects(truths: set<Expr>, tag: string, x: Expr, y: Expr, side: bool)
    requires TernaryKey(x)
    requires var e := Group(tag, true, [x, y]); Eval(Term(truths), Pick(e, false, side)) == Eval(Term(truths), e)
    ensures AgreesOne(truths, x.key, side) && Eval(Term(truths), Branch(x.key, side)) == Eval(Term(truths), y)
  {
    var e, sem := Group(tag, true, [x, y]), Term(truths);
    PickLeftForm(tag, x, y, side);
    ReadsTwo(sem, [x, y]);
    ReadsTwo(sem, Pick(e, false, side).items);
    hide Pick, EvalAll;
    assert Eval(sem, Index(x.tag, x.base, Branch(x.key, side))) == Eval(sem, x);
  }

  lemma RightReflects(truths: set<Expr>, tag: string, x: Expr, y: Expr, side: bool)
    requires !TernaryKey(x) && TernaryKey(y)
    requires var e := Group(tag, true, [x, y]); Eval(Term(truths), Pick(e, false, side)) == Eval(Term(truths), e)
    ensures AgreesOne(truths, y.key, side)
    ensures Eval(Term(truths), PickItem(x, false, side)) == Eval(Term(truths), x)
  {
    var e, sem := Group(tag, true, [x, y]), Term(truths);
    PickPairForm(tag, x, y, side);
    var x', y', k := PickItem(x, false, side), Index(y.tag, y.base, Branch(y.key, side)), Branch(y.key, side);
    ReadsFirstTwo(sem, x', y', k);
    ReadsFirstTwo(sem, x, y, y);
    hide Pick, PickItem, EvalAll, Hits, HitsItem, Read;
    assert [Eval(sem, x'), Eval(sem, y')] == [Eval(sem, x), Eval(sem, y)];
    assert [Eval(sem, x'), Eval(sem, y')][0] == Eval(sem, x) && [Eval(sem, x'), Eval(sem, y')][1] == Eval(sem, y);
  }

  /** Without conditional indices a list keeps its length, and with one it grows. */
  lemma {:induction false} NoGrowth(items: seq<Expr>, found: bool, inGroup: bool, side: bool)
    requires forall i :: 0 <= i < |items| ==> !(inGroup && TernaryKey(items[i]))
    ensures |PickItems(items, found, inGroup, side)| == |items|
  {
    if items != [] { NoGrowth(items[..|items| - 1], found, inGroup, side); }
  }

  lemma {:induction false} PickGrows(items: seq<Expr>, found: bool, side: bool)
    ensures |PickItems(items, found, true, side)| >= |items|
    ensures |PickItems(items, found, true, side)| == |items| ==> forall i :: 0 <= i < |items| ==> !TernaryKey(items[i])
  {
    if items != [] { PickGrows(items[..|items| - 1], found, side); }
  }

  lemma LastEvaluated<V>(sem: Semantics<V>, picked: seq<Expr>, p: Expr, items: seq<Expr>)
    requires |items| == |picked| + 1 && EvalAll(sem, picked + [p]) == EvalAll(sem, items)
    ensures EvalAll(sem, picked) == EvalAll(sem, items[..|picked|]) && Eval(sem, p) == Eval(sem, items[|picked|])
  {
    var n := |picked|;
    EvalAllAppend(sem, picked, [p]);
    EvalAllOne(sem, p);
    assert EvalAll(sem, picked + [p])[..n] == EvalAll(sem, picked);
    assert EvalAll(sem, items)[..n] == EvalAll(sem, items[..n]);
    assert EvalAll(sem, picked + [p])[n] == Eval(sem, p);
  }

  lemma {:induction false} PickReflectsItems(truths: set<Expr>, items: seq<Expr>, found: bool,
                                             inGroup: bool, side: bool)
    requires forall i :: 0 <= i < |items| ==> Formed(items[i]) && !(inGroup && TernaryKey(items[i]))
    requires EvalAll(Term(truths), PickItems(items, found, inGroup, side)) == EvalAll(Term(truths), items)
    ensures ShowsItems(truths, items, found, inGroup, side)
    decreases items, 0
  {
    if items != [] {
      var sem, last := Term(truths), |items| - 1;
      var init := items[..last];
      var now := found || HitsItems(init, found, inGroup) != [];
      NoGrowth(init, found, inGroup, side);
      var picked := PickItems(init, found, inGroup, side);
      assert PickItems(items, found, inGroup, side) == picked + [PickItem(items[last], now, side)];
      LastEvaluated(sem, picked, PickItem(items[last], now, side), items);
      hide PickItems, PickItem, EvalAll, Eval;
      PickReflectsItems(truths, init, found, inGroup, side);
      PickReflectsItem(truths, items[last], now, side);
    }
  }

  /** And a side that shows all that means what e means under the term semantics. */
  lemma {:induction false} ShownIsKept(truths: set<Expr>, e: Expr, found: bool, side: bool)
    requires Formed(e) && Shows(truths, e, found, side)
    ensures Eval(Term(truths), Pick(e, found, side)) == Eval(Term(truths), e)
    decreases e, 0
  {
    if !found {
      match e
      case Wrap(_, inner) => ShownItemIsKept(truths, inner, false, side);
      case Group(tag, binary, items) =>
        if binary && TernaryKey(items[0]) {
          assert items == [items[0], items[1]];
          ShownLeftIsKept(truths, tag, items[0], items[1], side);
        } else if binary && TernaryKey(items[1]) {
          assert items == [items[0], items[1]];
          ShownItemIsKept(truths, items[0], false, side);
          ShownRightIsKept(truths, tag, items[0], items[1], side);
        } else {
          ShownItemsAreKept(truths, items, false, true, side);
        }
      case Call(_, called, args) =>
        ShownItemIsKept(truths, called, false, side);
        ShownItemsAreKept(truths, args, HitsItem(called, false, false) != [], false, side);
      case _ =>
    }
  }

  lemma {:induction false} ShownItemIsKept(truths: set<Expr>, item: Expr, found: bool, side: bool)
    requires Formed(item) && ShowsItem(truths, item, found, side)
    ensures Eval(Term(truths), PickItem(item, found, side)) == Eval(Term(truths), item)
    decreases item, 1
  {
    if !item.Ternary? { ShownIsKept(truths, item, found, side); }
  }

  lemma {:induction false} ShownItemsAreKept(truths: set<Expr>, items: seq<Expr>, found: bool,
                                             inGroup: bool, side: bool)
    requires forall i :: 0 <= i < |items| ==> Formed(items[i]) && !(inGroup && TernaryKey(items[i]))
    requires ShowsItems(truths, items, found, inGroup, side)
    ensures EvalAll(Term(truths), PickItems(items, found, inGroup, side)) == EvalAll(Term(truths), items)
    decreases items, 0
  {
    if items != [] {
      var sem, last := Term(truths), |items| - 1;
      var init := items[..last];
      var now := found || HitsItems(init, found, inGroup) != [];
      ShownItemsAreKept(truths, init, found, inGroup, side);
      ShownItemIsKept(truths, items[last], now, side);
      EvalAllAppend(sem, PickItems(init, found, inGroup, side), [PickItem(items[last], now, side)]);
      EvalAllOne(sem, PickItem(items[last], now, side));
    }
  }

  lemma ShownLeftIsKept(truths: set<Expr>, tag: string, x: Expr, y: Expr, side: bool)
    requires TernaryKey(x) && AgreesOne(truths, x.key, side)
    requires Eval(Term(truths), Branch(x.key, side)) == Eval(Term(truths), y)
    ensures var e := Group(tag, true, [x, y]); Eval(Term(truths), Pick(e, false, side)) == Eval(Term(truths), e)
  {
    var e, sem := Group(tag, true, [x, y]), Term(truths);
    PickLeftForm(tag, x, y, side);
    ReadsTwo(sem, [x, y]);
    ReadsTwo(sem, Pick(e, false, side).items);
    hide Pick, EvalAll;
    assert Eval(sem, Index(x.tag, x.base, Branch(x.key, side))) == Eval(sem, x);
  }

  lemma ShownRightIsKept(truths: set<Expr>, tag: string, x: Expr, y: Expr, side: bool)
    requires !TernaryKey(x) && TernaryKey(y) && AgreesOne(truths, y.key, side)
    requires Eval(Term(truths), PickItem(x, false, side)) == Eval(Term(truths), x)
    ensures var e := Group(tag, true, [x, y]); Eval(Term(truths), Pick(e, false, side)) == Eval(Term(truths), e)
  {
    var sem, k := Term(truths), Branch(y.key, side);
    PickPairForm(tag, x, y, side);
    var x', y' := PickItem(x, false, side), Index(y.tag, y.base, k);
    assert Eval(sem, y') == Eval(sem, y);
    hide Pick, PickItem, Hits, HitsItem;
    PairEval(sem, tag, x, y, x', y', k);
  }

  // ----- from terms to any semantics -----

  /** e with every conditional decided as sem says. */
  function Resolved<V>(sem: Semantics<V>, e: Expr): Expr
    decreases e
  {
    match e
    case Index(tag, base, key) => Index(tag, Resolved(sem, base), Resolved(sem, key))
    case Wrap(tag, inner) => Wrap(tag, Resolved(sem, inner))
    case Group(tag, binary, items) => Group(tag, binary, Read(binary, ResolvedAll(sem, items)))
    case Call(tag, called, args) => Call(tag, Resolved(sem, called), ResolvedAll(sem, args))
    case Ternary(cond, onTrue, onFalse) =>
      if sem.truth(Eval(sem, cond)) then Resolved(sem, onTrue) else Resolved(sem, onFalse)
    case _ => e
  }

  function ResolvedAll<V>(sem: Semantics<V>, es: seq<Expr>): (ts: seq<Expr>)
    ensures |ts| == |es| && forall i :: 0 <= i < |es| ==> ts[i] == Resolved(sem, es[i])
    decreases es
  {
    if es == [] then [] else ResolvedAll(sem, es[..|es| - 1]) + [Resolved(sem, es[|es| - 1])]
  }

  /** The conditions inside e, resolved. */
  function Used<V>(sem: Semantics<V>, e: Expr): set<Expr>
    decreases e
  {
    match e
    case Index(_, base, key) => Used(sem, base) + Used(sem, key)
    case Wrap(_, inner) => Used(sem, inner)
    case Group(_, _, items) => UsedAll(sem, items)
    case Call(_, called, args) => Used(sem, called) + UsedAll(sem, args)
    case Ternary(cond, onTrue, onFalse) =>
      {Resolved(sem, cond)} + Used(sem, cond) + Used(sem, onTrue) + Used(sem, onFalse)
    case _ => {}
  }

  function UsedAll<V>(sem: Semantics<V>, es: seq<Expr>): set<Expr>
    decreases es
  {
    if es == [] then {} else UsedAll(sem, es[..|es| - 1]) + Used(sem, es[|es| - 1])
  }

  lemma {:induction false} UsedAt<V>(sem: Semantics<V>, es: seq<Expr>, i: nat)
    requires i < |es|
    ensures Used(sem, es[i]) <= UsedAll(sem, es)
  {
    if i < |es| - 1 { UsedAt(sem, es[..|es| - 1], i); }
  }

  lemma {:induction false} UsedAppend<V>(sem: Semantics<V>, xs: seq<Expr>, ys: seq<Expr>)
    ensures UsedAll(sem, xs + ys) == UsedAll(sem, xs) + UsedAll(sem, ys)
  {
    if ys == [] {
      assert xs + ys == xs;
    } else {
      assert (xs + ys)[..|xs + ys| - 1] == xs + ys[..|ys| - 1];
      UsedAppend(sem, xs, ys[..|ys| - 1]);
    }
  }

  /** Resolving changes no meaning. */
  lemma {:induction false} ResolvedMeans<V>(sem: Semantics<V>, e: Expr)
    ensures Eval(sem, Resolved(sem, e)) == Eval(sem, e)
    decreases e
  {
    match e
    case Index(_, base, key) => ResolvedMeans(sem, base); ResolvedMeans(sem, key);
    case Wrap(_, inner) => ResolvedMeans(sem, inner);
    case Group(_, binary, items) =>
      ResolvedAllMean(sem, items);
      ReadTwice(sem, binary, ResolvedAll(sem, items));
    case Call(_, called, args) => ResolvedMeans(sem, called); ResolvedAllMean(sem, args);
    case Ternary(cond, onTrue, onFalse) => ResolvedMeans(sem, onTrue); ResolvedMeans(sem, onFalse);
    case _ =>
  }

  lemma {:induction false} ResolvedAllMean<V>(sem: Semantics<V>, es: seq<Expr>)
    ensures EvalAll(sem, ResolvedAll(sem, es)) == EvalAll(sem, es)
    decreases es
  {
    forall i | 0 <= i < |es| ensures Eval(sem, ResolvedAll(sem, es)[i]) == Eval(sem, es[i]) {
      ResolvedMeans(sem, es[i]);
    }
  }

  lemma ReadTwice<V>(sem: Semantics<V>, binary: bool, es: seq<Expr>)
    ensures Read(binary, EvalAll(sem, Read(binary, es))) == Read(binary, EvalAll(sem, es))
  {
    var few := Read(binary, es);
    assert forall i :: 0 <= i < |few| ==> EvalAll(sem, few)[i] == EvalAll(sem, es)[i];
  }

  /** Among the terms used, those that sem takes for true. */
  ghost predicate Matches<V>(sem: Semantics<V>, truths: set<Expr>, used: set<Expr>) {
    forall t :: t in used ==> (t in truths <==> sem.truth(Eval(sem, t)))
  }

  /** Under such a choice the value of e is the resolved term. */
  lemma {:induction false} TermIsResolved<V>(sem: Semantics<V>, truths: set<Expr>, used: set<Expr>, e: Expr)
    requires Matches(sem, truths, used) && Used(sem, e) <= used
    ensures Eval(Term(truths), e) == Resolved(sem, e)
    decreases e
  {
    match e
    case Index(_, base, key) => TermIsResolved(sem, truths, used, base); TermIsResolved(sem, truths, used, key);
    case Wrap(_, inner) => TermIsResolved(sem, truths, used, inner);
    case Group(_, _, items) => TermsAreResolved(sem, truths, used, items);
    case Call(_, called, args) =>
      TermIsResolved(sem, truths, used, called);
      TermsAreResolved(sem, truths, used, args);
    case Ternary(cond, onTrue, onFalse) =>
      TermIsResolved(sem, truths, used, cond);
      ResolvedMeans(sem, cond);
      assert Resolved(sem, cond) in Used(sem, e);
      TermIsResolved(sem, truths, used, onTrue);
      TermIsResolved(sem, truths, used, onFalse);
    case _ =>
  }

  lemma {:induction false} TermsAreResolved<V>(sem: Semantics<V>, truths: set<Expr>, used: set<Expr>, es: seq<Expr>)
    requires Matches(sem, truths, used) && UsedAll(sem, es) <= used
    ensures EvalAll(Term(truths), es) == ResolvedAll(sem, es)
    decreases es
  {
    forall i | 0 <= i < |es| ensures Eval(Term(truths), es[i]) == Resolved(sem, es[i]) {
      UsedAt(sem, es, i);
      TermIsResolved(sem, truths, used, es[i]);
    }
  }

  /** A side uses no other conditions than e. */
  lemma {:induction false} UsedInPick<V>(sem: Semantics<V>, e: Expr, found: bool, side: bool)
    ensures Used(sem, Pick(e, found, side)) <= Used(sem, e)
    ensures forall h :: h in Hits(e, found) ==> Used(sem, h) <= Used(sem, e)
    decreases e, 0
  {
    if !found {
      match e
      case Wrap(_, inner) => UsedInPieces(sem, inner, false, false, side);
      case Group(_, _, items) => UsedInItems(sem, items, false, true, side);
      case Call(_, called, args) =>
        UsedInPieces(sem, called, false, false, side);
        UsedInItems(sem, args, HitsItem(called, false, false) != [], false, side);
      case _ =>
    }
  }

  lemma {:induction false} UsedInPieces<V>(sem: Semantics<V>, item: Expr, found: bool, inGroup: bool, side: bool)
    ensures UsedAll(sem, Pieces(item, found, inGroup, side)) <= Used(sem, item)
    ensures !inGroup ==> Used(sem, PickItem(item, found, side)) <= Used(sem, item)
    ensures forall h :: h in HitsItem(item, found, inGroup) ==> Used(sem, h) <= Used(sem, item)
    decreases item, 1
  {
    if inGroup && TernaryKey(item) {
      var k := Branch(item.key, side);
      UsedTwo(sem, Index(item.tag, item.base, k), k);
    } else {
      if !item.Ternary? { UsedInPick(sem, item, found, side); }
      UsedOne(sem, PickItem(item, found, side));
    }
  }

  lemma UsedOne<V>(sem: Semantics<V>, e: Expr)
    ensures UsedAll(sem, [e]) == Used(sem, e)
  {
    assert [e][..0] == [];
  }

  lemma UsedTwo<V>(sem: Semantics<V>, x: Expr, y: Expr)
    ensures UsedAll(sem, [x, y]) == Used(sem, x) + Used(sem, y)
  {
    UsedAppend(sem, [x], [y]);
    UsedOne(sem, x);
    UsedOne(sem, y);
    assert [x] + [y] == [x, y];
  }

  lemma {:induction false} UsedInItems<V>(sem: Semantics<V>, items: seq<Expr>, found: bool, inGroup: bool, side: bool)
    ensures UsedAll(sem, PickItems(items, found, inGroup, side)) <= UsedAll(sem, items)
    ensures forall h :: h in HitsItems(items, found, inGroup) ==> Used(sem, h) <= UsedAll(sem, items)
    decreases items, 0
  {
    if items != [] {
      var init, last := items[..|items| - 1], items[|items| - 1];
      var now := found || HitsItems(init, found, inGroup) != [];
      UsedInItems(sem, init, found, inGroup, side);
      UsedInPieces(sem, last, now, inGroup, side);
      UsedAppend(sem, PickItems(init, found, inGroup, side), Pieces(last, now, inGroup, side));
    }
  }

  // ----- the exact condition -----

  /** The side that the recorded condition selects shows what it has to. */
  ghost predicate ShowsSelected(truths: set<Expr>, e: Expr)
    requires SplitOf(e).Split? && SplitOf(e).condition.Some?
  {
    Shows(truths, e, false, Eval(Term(truths), SplitOf(e).condition.value) in truths)
  }

  /** Whatever terms are true: every recorded conditional takes the side that the last one's
      condition selects or has branches of one value, no tuple holds a conditional index, and next
      to one on the left of a binary node its chosen branch has the right operand's value. */
  ghost predicate AlwaysAgrees(e: Expr)
    requires SplitOf(e).Split? && SplitOf(e).condition.Some?
  {
    forall truths :: ShowsSelected(truths, e)
  }

  /** A split is right under every semantics exactly under that condition. */
  lemma SplitExact(e: Expr)
    requires Formed(e) && SplitOf(e).Split? && SplitOf(e).condition.Some?
    ensures (forall sem: Semantics<Expr> :: Preserved(sem, e)) <==> AlwaysAgrees(e)
  {
    hide *;
    if AlwaysAgrees(e) {
      forall sem: Semantics<Expr> ensures Preserved(sem, e) { AgreedIsPreserved(sem, e); }
    }
    if forall sem: Semantics<Expr> :: Preserved(sem, e) {
      forall truths ensures ShowsSelected(truths, e) {
        assert Preserved(Term(truths), e);
        PreservedIsShown(truths, e);
      }
      AgreesAlways(e);
    }
  }

  lemma AgreesAlways(e: Expr)
    requires SplitOf(e).Split? && SplitOf(e).condition.Some? && forall truths :: ShowsSelected(truths, e)
    ensures AlwaysAgrees(e)
  {
  }

  lemma PreservedIsShown(truths: set<Expr>, e: Expr)
    requires Formed(e) && SplitOf(e).Split? && SplitOf(e).condition.Some? && Preserved(Term(truths), e)
    ensures ShowsSelected(truths, e)
  {
    if !e.Ternary? {
      PickReflects(truths, e, false, Eval(Term(truths), SplitOf(e).condition.value) in truths);
    }
  }

  /** For the semantics the front end's expressions have, whatever it is. */
  lemma AgreedIsPreserved<V>(sem: Semantics<V>, e: Expr)
    requires Formed(e) && SplitOf(e).Split? && SplitOf(e).condition.Some? && AlwaysAgrees(e)
    ensures Preserved(sem, e)
  {
    if !e.Ternary? {
      var c, used := SplitOf(e).condition.value, Used(sem, e);
      var truths := set t | t in used && sem.truth(Eval(sem, t));
      ConditionIsUsed(sem, e, truths);
      var side := sem.truth(Eval(sem, c));
      assert ShowsSelected(truths, e);
      ShownIsKept(truths, e, false, side);
      UsedInPick(sem, e, false, side);
      TermIsResolved(sem, truths, used, e);
      TermIsResolved(sem, truths, used, Pick(e, false, side));
      ResolvedMeans(sem, e);
      ResolvedMeans(sem, Pick(e, false, side));
    }
  }

  lemma ConditionIsUsed<V>(sem: Semantics<V>, e: Expr, truths: set<Expr>)
    requires !e.Ternary? && SplitOf(e).Split? && SplitOf(e).condition.Some? && Matches(sem, truths, Used(sem, e))
    ensures var c := SplitOf(e).condition.value; Eval(Term(truths), c) in truths <==> sem.truth(Eval(sem, c))
  {
    var hits, c := Hits(e, false), SplitOf(e).condition.value;
    HitsAreTernary(e, false);
    assert hits[|hits| - 1] in hits && c == hits[|hits| - 1].cond;
    UsedInPick(sem, e, false, true);
    assert Resolved(sem, c) in Used(sem, hits[|hits| - 1]);
    TermIsResolved(sem, truths, Used(sem, e), c);
    ResolvedMeans(sem, c);
  }

  // ----- when it can be read off the expression -----

  /** A conditional without further ones in it. */
  predicate PlainTernary(h: Expr) {
    h.Ternary? && Formed(h) && Count(h) == 1
  }

  predicate PlainHits(hits: seq<Expr>) {
    forall h :: h in hits ==> PlainTernary(h)
  }

  /** The right operand beside a conditional index on the left holds no conditional but those
      that are recorded. */
  predicate RightsPlain(e: Expr, found: bool)
    decreases e, 0
  {
    found ||
    match e
    case Wrap(_, inner) => RightsPlainItem(inner, false)
    case Group(_, binary, items) =>
      && RightsPlainItems(items, false, true)
      && (binary && |items| == 2 && TernaryKey(items[0]) ==>
            Count(RightPicked(items[1], true)) == 0 && Count(RightPicked(items[1], false)) == 0)
    case Call(_, called, args) =>
      RightsPlainItem(called, false) && RightsPlainItems(args, HitsItem(called, false, false) != [], false)
    case _ => true
  }

  predicate RightsPlainItem(item: Expr, found: bool)
    decreases item, 1
  {
    item.Ternary? || RightsPlain(item, found)
  }

  predicate RightsPlainItems(items: seq<Expr>, found: bool, inGroup: bool)
    decreases items, 0
  {
    items == [] ||
    (&& RightsPlainItems(items[..|items| - 1], found, inGroup)
     && RightsPlainItem(items[|items| - 1], found || HitsItems(items[..|items| - 1], found, inGroup) != []))
  }

  /** Without conditional indices in its lists an expression has no extra list entries. */
  lemma {:induction false} PlainIsHarmless(e: Expr, found: bool)
    requires Formed(e) && NoKeys(e)
    ensures Harmless(e, found) && RightsPlain(e, found)
    decreases e, 0
  {
    match e
    case Wrap(_, inner) => PlainIsHarmless(inner, false);
    case Group(_, _, items) => PlainAreHarmless(items, false, true);
    case Call(_, called, args) =>
      PlainIsHarmless(called, false);
      PlainAreHarmless(args, HitsItem(called, false, false) != [], false);
    case _ =>
  }

  lemma {:induction false} PlainAreHarmless(items: seq<Expr>, found: bool, inGroup: bool)
    requires forall i :: 0 <= i < |items| ==> Formed(items[i]) && NoKeys(items[i])
    ensures HarmlessItems(items, found, inGroup) && RightsPlainItems(items, found, inGroup)
    decreases items, 0
  {
    if items != [] {
      var init := items[..|items| - 1];
      PlainAreHarmless(init, found, inGroup);
      PlainIsHarmless(items[|items| - 1], found || HitsItems(init, found, inGroup) != []);
    }
  }

  /** All recorded conditionals have condition c or equal branches. */
  predicate ConsistentWith(c: Expr, hits: seq<Expr>)
    requires AllTernary(hits)
  {
    forall h :: h in hits ==> h.cond == c || h.onTrue == h.onFalse
  }

  lemma PartsArePlain(truths: set<Expr>, h: Expr)
    requires PlainTernary(h)
    ensures Eval(Term(truths), h.cond) == h.cond
    ensures Eval(Term(truths), h.onTrue) == h.onTrue && Eval(Term(truths), h.onFalse) == h.onFalse
  {
    TermEval(truths, h.cond);
    TermEval(truths, h.onTrue);
    TermEval(truths, h.onFalse);
  }

  /** What both sides show for every choice of true terms; c is the split's condition. */
  ghost predicate AlwaysShows(c: Expr, e: Expr, found: bool) {
    forall truths :: Shows(truths, e, found, c in truths)
  }

  ghost predicate AlwaysShowsItem(c: Expr, item: Expr, found: bool) {
    forall truths :: ShowsItem(truths, item, found, c in truths)
  }

  ghost predicate AlwaysShowsItems(c: Expr, items: seq<Expr>, found: bool, inGroup: bool) {
    forall truths :: ShowsItems(truths, items, found, inGroup, c in truths)
  }

  lemma {:induction false} ShownIsRight(c: Expr, e: Expr, found: bool)
    requires Formed(e) && PlainHits(Hits(e, found)) && RightsPlain(e, found) && AlwaysShows(c, e, found)
    ensures AllTernary(Hits(e, found)) && ConsistentWith(c, Hits(e, found)) && Harmless(e, found)
    decreases e, 0
  {
    if !found {
      match e
      case Wrap(_, inner) =>
        assert AlwaysShowsItem(c, inner, false) by {
          forall truths ensures ShowsItem(truths, inner, false, c in truths) {
            assert Shows(truths, e, false, c in truths);
          }
        }
        ShownItemIsRight(c, inner, false);
      case Group(tag, binary, items) =>
        assert binary ==> items == [items[0], items[1]];
        if binary && TernaryKey(items[0]) {
          ShownLeftIsRight(c, tag, items[0], items[1]);
        } else if binary && TernaryKey(items[1]) {
          ShownRightIsRight(c, tag, items[0], items[1]);
        } else {
          assert AlwaysShowsItems(c, items, false, true) by {
            forall truths ensures ShowsItems(truths, items, false, true, c in truths) {
              assert Shows(truths, e, false, c in truths);
            }
          }
          var none: set<Expr> := {};
          assert Shows(none, e, false, c in none);
          ShownItemsAreRight(c, items, false, true);
        }
      case Call(_, called, args) =>
        var now := HitsItem(called, false, false) != [];
        assert AlwaysShowsItem(c, called, false) && AlwaysShowsItems(c, args, now, false) by {
          forall truths
            ensures ShowsItem(truths, called, false, c in truths) && ShowsItems(truths, args, now, false, c in truths)
          {
            assert Shows(truths, e, false, c in truths);
          }
        }
        ShownItemIsRight(c, called, false);
        ShownItemsAreRight(c, args, now, false);
      case _ =>
    }
  }

  lemma {:induction false} ShownItemIsRight(c: Expr, item: Expr, found: bool)
    requires Formed(item) && PlainHits(HitsItem(item, found, false)) && RightsPlainItem(item, found)
    requires AlwaysShowsItem(c, item, found)
    ensures AllTernary(HitsItem(item, found, false)) && ConsistentWith(c, HitsItem(item, found, false))
    ensures HarmlessItem(item, found)
    decreases item, 1
  {
    if item.Ternary? {
      assert item in HitsItem(item, found, false);
      assert ShowsItem({c}, item, found, true);
      PartsArePlain({c}, item);
    } else {
      assert AlwaysShows(c, item, found) by {
        forall truths ensures Shows(truths, item, found, c in truths) {
          assert ShowsItem(truths, item, found, c in truths);
        }
      }
      ShownIsRight(c, item, found);
    }
  }

  lemma {:induction false} ShownItemsAreRight(c: Expr, items: seq<Expr>, found: bool, inGroup: bool)
    requires forall i :: 0 <= i < |items| ==> Formed(items[i]) && !(inGroup && TernaryKey(items[i]))
    requires PlainHits(HitsItems(items, found, inGroup)) && RightsPlainItems(items, found, inGroup)
    requires AlwaysShowsItems(c, items, found, inGroup)
    ensures AllTernary(HitsItems(items, found, inGroup)) && ConsistentWith(c, HitsItems(items, found, inGroup))
    ensures HarmlessItems(items, found, inGroup)
    decreases items, 0
  {
    if items != [] {
      var init, last := items[..|items| - 1], items[|items| - 1];
      var before := HitsItems(init, found, inGroup);
      var now := found || before != [];
      assert HitsItems(items, found, inGroup) == before + HitsItem(last, now, false);
      assert AlwaysShowsItems(c, init, found, inGroup) && AlwaysShowsItem(c, last, now) by {
        forall truths
          ensures ShowsItems(truths, init, found, inGroup, c in truths) && ShowsItem(truths, last, now, c in truths)
        {
          assert ShowsItems(truths, items, found, inGroup, c in truths);
        }
      }
      ShownItemsAreRight(c, init, found, inGroup);
      ShownItemIsRight(c, last, now);
    }
  }

  /** A conditional index on the right. */
  lemma {:induction false} ShownRightIsRight(c: Expr, tag: string, x: Expr, y: Expr)
    requires !TernaryKey(x) && TernaryKey(y) && Formed(x) && Formed(y)
    requires var e := Group(tag, true, [x, y]);
             PlainHits(Hits(e, false)) && RightsPlain(e, false) && AlwaysShows(c, e, false)
    ensures var e := Group(tag, true, [x, y]);
            AllTernary(Hits(e, false)) && ConsistentWith(c, Hits(e, false)) && Harmless(e, false)
    decreases [x, y], 1
  {
    var e := Group(tag, true, [x, y]);
    PickPairForm(tag, x, y, true);
    var hits := HitsItem(x, false, false);
    assert forall h :: h in hits ==> h in Hits(e, false);
    assert y.key in Hits(e, false);
    FirstRightsPlain(x, y);
    assert AlwaysShowsItem(c, x, false) by {
      forall truths ensures ShowsItem(truths, x, false, c in truths) {
        assert Shows(truths, e, false, c in truths);
      }
    }
    ShownItemIsRight(c, x, false);
    assert Shows({c}, e, false, true);
    PartsArePlain({c}, y.key);
    PairHarmless(x, y);
  }

  lemma FirstRightsPlain(x: Expr, y: Expr)
    requires RightsPlainItems([x, y], false, true)
    ensures RightsPlainItem(x, false)
  {
    assert [x, y][..1] == [x] && [x][..0] == [];
  }

  lemma PairHarmless(x: Expr, y: Expr)
    requires HarmlessItem(x, false) && (HarmlessItem(y, HitsItem(x, false, true) != []) || TernaryKey(y))
    ensures HarmlessItems([x, y], false, true)
  {
    assert [x, y][..1] == [x] && [x][..0] == [];
    SingleItem(x, true, true);
  }

  /** A conditional index on the left. */
  lemma ShownLeftIsRight(c: Expr, tag: string, x: Expr, y: Expr)
    requires TernaryKey(x) && Formed(x) && Formed(y)
    requires var e := Group(tag, true, [x, y]);
             PlainHits(Hits(e, false)) && RightsPlain(e, false) && AlwaysShows(c, e, false)
    ensures var e := Group(tag, true, [x, y]);
            AllTernary(Hits(e, false)) && ConsistentWith(c, Hits(e, false)) && Harmless(e, false)
  {
    var e := Group(tag, true, [x, y]);
    PickLeftForm(tag, x, y, true);
    var hits := Hits(e, false);
    assert x.key in hits && (y.Ternary? ==> y in hits) && (TernaryKey(y) ==> y.key in hits);
    HitsAreTernary(e, false);
    LeftIsRight(c, tag, x, y);
    PairHarmless(x, y);
  }

  /** The recorded conditionals agree with c, and the branches are what is picked on the right. */
  lemma LeftIsRight(c: Expr, tag: string, x: Expr, y: Expr)
    requires TernaryKey(x) && Formed(x) && Formed(y) && PlainTernary(x.key)
    requires (y.Ternary? ==> PlainTernary(y)) && (TernaryKey(y) ==> PlainTernary(y.key))
    requires Count(RightPicked(y, true)) == 0 && Count(RightPicked(y, false)) == 0
    requires AlwaysShows(c, Group(tag, true, [x, y]), false)
    ensures HarmlessPair(x, y) && ConsistentWith(c, [x.key])
    ensures (y.Ternary? ==> ConsistentWith(c, [y])) && (TernaryKey(y) ==> ConsistentWith(c, [y.key]))
  {
    hide Count, Formed, PlainTernary, AlwaysShows;
    LeftShows(c, tag, x, y, {c});
    LeftShows(c, tag, x, y, {});
    var other := RightCondition(y);
    if other.Some? {
      LeftShows(c, tag, x, y, {c, other.value});
    } else {
      OtherRight(y, true);
      OtherRight(y, false);
    }
  }

  /** The condition recorded for the right operand, if it is a conditional or a conditional index. */
  function RightCondition(y: Expr): Option<Expr> {
    if y.Ternary? then Some(y.cond) else if TernaryKey(y) then Some(y.key.cond) else None
  }

  predicate RightSide(y: Expr, truths: set<Expr>) {
    RightCondition(y).Some? && RightCondition(y).value in truths
  }

  /** For one choice of true terms: the index agrees, and the branch is the right operand's value. */
  lemma LeftShows(c: Expr, tag: string, x: Expr, y: Expr, truths: set<Expr>)
    requires TernaryKey(x) && Formed(x) && Formed(y) && PlainTernary(x.key)
    requires (y.Ternary? ==> PlainTernary(y)) && (TernaryKey(y) ==> PlainTernary(y.key))
    requires Count(RightPicked(y, true)) == 0 && AlwaysShows(c, Group(tag, true, [x, y]), false)
    ensures (x.key.cond in truths) == (c in truths) || x.key.onTrue == x.key.onFalse
    ensures Branch(x.key, c in truths) == RightPicked(y, RightSide(y, truths))
  {
    assert Shows(truths, Group(tag, true, [x, y]), false, c in truths);
    PartsArePlain(truths, x.key);
    hide Shows, AlwaysShows, Eval, RightPicked, RightSide;
    RightValue(truths, y);
  }

  lemma RightValue(truths: set<Expr>, y: Expr)
    requires Formed(y) && Count(RightPicked(y, true)) == 0
    requires (y.Ternary? ==> PlainTernary(y)) && (TernaryKey(y) ==> PlainTernary(y.key))
    ensures Eval(Term(truths), y) == RightPicked(y, RightSide(y, truths))
  {
    if y.Ternary? {
      PartsArePlain(truths, y);
    } else if TernaryKey(y) {
      PartsArePlain(truths, y.key);
      TermEval(truths, y.base);
    } else {
      OtherRight(y, true);
      OtherRight(y, false);
      TermEval(truths, y);
    }
  }

  /** If the recorded conditionals hold no further ones, the condition is that they are consistent
      and the extra list entries harmless, both up to equality of expressions. */
  lemma PlainSplitExact(e: Expr)
    requires Formed(e) && SplitOf(e).Split? && SplitOf(e).condition.Some?
    requires PlainHits(Hits(e, false)) && RightsPlain(e, false) && AllTernary(Hits(e, false))
    ensures (forall sem: Semantics<Expr> :: Preserved(sem, e)) <==> Consistent(Hits(e, false)) && Harmless(e, false)
  {
    if Consistent(Hits(e, false)) && Harmless(e, false) {
      forall sem: Semantics<Expr> ensures Preserved(sem, e) { SplitPreserves(sem, e); }
    }
    if (forall sem: Semantics<Expr> :: Preserved(sem, e)) && !e.Ternary? {
      hide *;
      PreservedShows(e);
      ShownIsRight(LastCondition(e), e, false);
      ConsistentWithLast(e);
    }
    if e.Ternary? { TernaryHasNoHits(e); }
  }

  lemma TernaryHasNoHits(e: Expr)
    requires e.Ternary?
    ensures Hits(e, false) == [] && Harmless(e, false)
  {
  }

  /** The condition the split records. */
  function LastCondition(e: Expr): Expr
    requires !e.Ternary? && SplitOf(e).Split? && SplitOf(e).condition.Some?
  {
    SplitOf(e).condition.value
  }

  lemma ConsistentWithLast(e: Expr)
    requires !e.Ternary? && SplitOf(e).Split? && SplitOf(e).condition.Some?
    requires AllTernary(Hits(e, false)) && ConsistentWith(LastCondition(e), Hits(e, false))
    ensures Consistent(Hits(e, false))
  {
  }

  lemma PreservedShows(e: Expr)
    requires Formed(e) && !e.Ternary? && SplitOf(e).Split? && SplitOf(e).condition.Some?
    requires PlainHits(Hits(e, false)) && forall sem: Semantics<Expr> :: Preserved(sem, e)
    ensures AlwaysShows(LastCondition(e), e, false)
  {
    var hits, c := Hits(e, false), LastCondition(e);
    assert hits[|hits| - 1] in hits && c == hits[|hits| - 1].cond;
    forall truths ensures Shows(truths, e, false, c in truths) {
      PartsArePlain(truths, hits[|hits| - 1]);
      assert Preserved(Term(truths), e);
      PickReflects(truths, e, false, c in truths);
    }
  }

  /** Without conditional indices nothing but the consistency of the recorded conditionals counts. */
  lemma KeylessSplitExact(e: Expr)
    requires Formed(e) && NoKeys(e) && SplitOf(e).Split? && SplitOf(e).condition.Some?
    requires PlainHits(Hits(e, false)) && AllTernary(Hits(e, false))
    ensures (forall sem: Semantics<Expr> :: Preserved(sem, e)) <==> Consistent(Hits(e, false))
  {
    hide *;
    PlainIsHarmless(e, false);
    PlainSplitExact(e);
  }
}
