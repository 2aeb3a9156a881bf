/** The splitter itself: it copies AST nodes shallowly and reassigns the fields of the
    copies, and is proved to compute TernarySpec.SplitOf without touching its input. */
module SplitTernary {
  import opened Collections
  import opened ExpressionSyntax
  import opened TernarySpec

  datatype Kind = KLeaf | KIndex | KWrap | KGroup | KCall | KTernary | KOpaque

  /** Class, operator and arity of a node. */
  datatype Head = Head(kind: Kind, tag: string, binary: bool)

  /** An AST node. A field is used by the kinds that have it and left alone by the others;
      the fields that are never reassigned are constants. */
  class Node {
    const head: Head
    var expressions: seq<Node>
    var arguments: seq<Node>
    var called: Node?
    var expression: Node?
    const ifExpression: Node?
    const thenExpression: Node?
    const elseExpression: Node?

    /** copy.copy: a new node whose fields hold the same references. */
    constructor Copy(n: Node)
      ensures fresh(this) && Same(this, n)
    {
      head := n.head;
      expressions, arguments, called, expression := n.expressions, n.arguments, n.called, n.expression;
      ifExpression, thenExpression, elseExpression := n.ifExpression, n.thenExpression, n.elseExpression;
    }

    constructor IndexAccess(left: Node, right: Node, tag: string)
      ensures fresh(this) && head == Head(KIndex, tag, false) && expressions == [left, right]
    {
      head := Head(KIndex, tag, false);
      expressions, arguments, called, expression := [left, right], [], null, null;
      ifExpression, thenExpression, elseExpression := null, null, null;
    }
  }

  ghost predicate Same(m: Node, n: Node)
    reads m, n
  {
    && m.head == n.head
    && m.expressions == n.expressions && m.arguments == n.arguments
    && m.called == n.called && m.expression == n.expression
    && m.ifExpression == n.ifExpression && m.thenExpression == n.thenExpression
    && m.elseExpression == n.elseExpression
  }

  ghost function HeadOf(e: Expr): Head {
    match e
    case Leaf(tag) => Head(KLeaf, tag, false)
    case Index(tag, _, _) => Head(KIndex, tag, false)
    case Wrap(tag, _) => Head(KWrap, tag, false)
    case Group(tag, binary, _) => Head(KGroup, tag, binary)
    case Call(tag, _, _) => Head(KCall, tag, false)
    case Ternary(_, _, _) => Head(KTernary, "", false)
    case Opaque(tag) => Head(KOpaque, tag, false)
  }

  ghost function Operands(e: Expr): (es: seq<Expr>)
    ensures forall i :: 0 <= i < |es| ==> es[i] < e
  {
    match e
    case Index(_, base, key) => [base, key]
    case Wrap(_, inner) => [inner]
    case Group(_, _, items) => items
    case Call(_, called, args) => [called] + args
    case Ternary(cond, onTrue, onFalse) => [cond, onTrue, onFalse]
    case _ => []
  }

  ghost function OperandNodes(n: Node): seq<Node?>
    reads n
  {
    match n.head.kind
    case KIndex => n.expressions
    case KWrap => [n.expression]
    case KGroup => n.expressions
    case KCall => [n.called] + n.arguments
    case KTernary => [n.ifExpression, n.thenExpression, n.elseExpression]
    case _ => []
  }

  /** The nodes of S reachable from n spell out the expression e. */
  ghost predicate Denotes(n: Node?, e: Expr, S: set<Node>)
    reads S
    decreases e, 1
  {
    n != null && n in S && n.head == HeadOf(e) && DenotesOperands(n, e, S)
  }

  ghost predicate DenotesOperands(n: Node, e: Expr, S: set<Node>)
    requires n in S
    reads S
    decreases e, 0
  {
    && |OperandNodes(n)| == |Operands(e)|
    && forall i :: 0 <= i < |Operands(e)| ==> Denotes(OperandNodes(n)[i], Operands(e)[i], S)
  }

  ghost predicate DenotesAll(ns: seq<Node?>, es: seq<Expr>, S: set<Node>)
    reads S
  {
    |ns| == |es| && forall i :: 0 <= i < |es| ==> Denotes(ns[i], es[i], S)
  }

  lemma {:induction false} DenotesIn(n: Node?, e: Expr, S: set<Node>, S': set<Node>)
    requires S <= S' && Denotes(n, e, S)
    ensures Denotes(n, e, S')
    decreases e
  {
    forall i | 0 <= i < |Operands(e)| ensures Denotes(OperandNodes(n)[i], Operands(e)[i], S') {
      DenotesIn(OperandNodes(n)[i], Operands(e)[i], S, S');
    }
  }

  lemma DenotesAllIn(ns: seq<Node?>, es: seq<Expr>, S: set<Node>, S': set<Node>)
    requires S <= S' && DenotesAll(ns, es, S)
    ensures DenotesAll(ns, es, S')
  {
    forall i | 0 <= i < |es| ensures Denotes(ns[i], es[i], S') { DenotesIn(ns[i], es[i], S, S'); }
  }

  /** A node denotes e when its operands denote those of e. */
  lemma Assembled(n: Node, e: Expr, S: set<Node>)
    requires n.head == HeadOf(e) && DenotesAll(OperandNodes(n), Operands(e), S)
    ensures Denotes(n, e, S + {n})
  {
    DenotesAllIn(OperandNodes(n), Operands(e), S, S + {n});
  }

  lemma Disassembled(n: Node, e: Expr, S: set<Node>)
    requires Denotes(n, e, S)
    ensures DenotesAll(OperandNodes(n), Operands(e), S)
  {
  }

  lemma KindDenoted(n: Node, e: Expr, S: set<Node>)
    requires Denotes(n, e, S)
    ensures n in S && n.head == HeadOf(e) && (n.head.kind == KTernary <==> e.Ternary?)
  {
  }

  /** A shallow copy denotes what the original denotes. */
  lemma CopyDenotes(m: Node, n: Node, e: Expr, S: set<Node>)
    requires Denotes(n, e, S) && Same(m, n)
    ensures Denotes(m, e, S + {m})
  {
    Disassembled(n, e, S);
    Assembled(m, e, S);
  }

  lemma CallDenotes(n: Node, tag: string, called: Expr, S: set<Node>, args: seq<Expr>, S': set<Node>)
    requires n.head == Head(KCall, tag, false) && Denotes(n.called, called, S) && DenotesAll(n.arguments, args, S')
    ensures Denotes(n, Call(tag, called, args), S + S' + {n})
  {
    DenotesAllAppend([n.called], [called], S, n.arguments, args, S');
    Assembled(n, Call(tag, called, args), S + S');
  }

  /** The arguments of a call node. */
  lemma ArgumentsDenote(n: Node, e: Expr, S: set<Node>)
    requires Denotes(n, e, S) && e.Call?
    ensures Denotes(n.called, e.called, S) && DenotesAll(n.arguments, e.args, S)
  {
    assert OperandNodes(n)[0] == n.called && Operands(e)[0] == e.called;
    forall i | 0 <= i < |e.args| ensures Denotes(n.arguments[i], e.args[i], S) {
      assert OperandNodes(n)[i + 1] == n.arguments[i] && Operands(e)[i + 1] == e.args[i];
    }
  }

  /** The operands of a conditional or index node. */
  lemma PartsDenote(n: Node, e: Expr, S: set<Node>)
    requires Denotes(n, e, S)
    ensures e.Ternary? ==> Denotes(n.ifExpression, e.cond, S) && Denotes(n.thenExpression, e.onTrue, S)
                           && Denotes(n.elseExpression, e.onFalse, S)
    ensures e.Index? ==>
              |n.expressions| == 2 && Denotes(n.expressions[0], e.base, S) && Denotes(n.expressions[1], e.key, S)
    ensures e.Wrap? ==> Denotes(n.expression, e.inner, S)
  {
    if e.Ternary? {
      assert Operands(e)[0] == e.cond && Operands(e)[1] == e.onTrue && Operands(e)[2] == e.onFalse;
    } else if e.Index? {
      assert Operands(e)[0] == e.base && Operands(e)[1] == e.key;
    } else if e.Wrap? {
      assert Operands(e)[0] == e.inner;
    }
  }

  lemma DenotesAllAppend(ns: seq<Node?>, es: seq<Expr>, S: set<Node>, ns': seq<Node?>, es': seq<Expr>, S': set<Node>)
    requires DenotesAll(ns, es, S) && DenotesAll(ns', es', S')
    ensures DenotesAll(ns + ns', es + es', S + S')
  {
    DenotesAllIn(ns, es, S, S + S');
    DenotesAllIn(ns', es', S', S + S');
  }

  lemma OneDenotes(n: Node, e: Expr, S: set<Node>)
    requires Denotes(n, e, S)
    ensures DenotesAll([n], [e], S)
  {
  }

  lemma PairDenotes(n: Node, e: Expr, S: set<Node>, n': Node, e': Expr, S': set<Node>, T: set<Node>)
    requires Denotes(n, e, S) && Denotes(n', e', S') && S <= T && S' <= T
    ensures DenotesAll([n, n'], [e, e'], T)
  {
    DenotesIn(n, e, S, T);
    DenotesIn(n', e', S', T);
  }

  lemma AccessPieces(n: Node, n': Node, e: Expr, S: set<Node>, side: bool) returns (ns: seq<Node>, T: set<Node>)
    requires TernaryKey(e) && Denotes(n, Index(e.tag, e.base, Branch(e.key, side)), S + {n})
    requires Denotes(n', Branch(e.key, side), S + {n'})
    ensures ns == [n, n'] && T == S + {n, n'} && forall found :: DenotesAll(ns, Pieces(e, found, true, side), T)
  {
    ns, T := [n, n'], S + {n, n'};
    PairDenotes(n, Index(e.tag, e.base, Branch(e.key, side)), S + {n}, n', Branch(e.key, side), S + {n'}, T);
  }

  lemma RaisesPrefix(items: seq<Expr>, i: nat, found: bool, inGroup: bool)
    requires i <= |items| && RaisesItems(items[..i], found, inGroup)
    ensures RaisesItems(items, found, inGroup)
  {
    if i < |items| {
      assert items[..|items| - 1][..i] == items[..i];
      RaisesPrefix(items[..|items| - 1], i, found, inGroup);
    } else {
      assert items[..i] == items;
    }
  }

  /** Which field of a copy the next operand goes to. */
  datatype Setter = ToExpressions | ToArguments | ToExpression | ToCalled

  /** n changed in one field only, which now also holds x. */
  twostate predicate Put(n: Node, new x: Node, f: Setter)
    reads n
  {
    && n.expressions == (if f.ToExpressions? then old(n.expressions) + [x] else old(n.expressions))
    && n.arguments == (if f.ToArguments? then old(n.arguments) + [x] else old(n.arguments))
    && n.expression == (if f.ToExpression? then x else old(n.expression))
    && n.called == (if f.ToCalled? then x else old(n.called))
  }

  method Set(n: Node, x: Node, f: Setter)
    modifies n
    ensures Put(n, x, f)
  {
    match f
    case ToExpressions => n.expressions := n.expressions + [x];
    case ToArguments => n.arguments := n.arguments + [x];
    case ToExpression => n.expression := x;
    case ToCalled => n.called := x;
  }

  function List(n: Node, inGroup: bool): seq<Node>
    reads n
  {
    if inGroup then n.expressions else n.arguments
  }

  /** n changed in one list only, which grew by xs. */
  twostate predicate Grown(n: Node, new xs: seq<Node>, inGroup: bool)
    reads n
  {
    && n.expressions == (if inGroup then old(n.expressions) + xs else old(n.expressions))
    && n.arguments == (if inGroup then old(n.arguments) else old(n.arguments) + xs)
    && n.expression == old(n.expression) && n.called == old(n.called)
  }

  /** At most that one list of n changed. */
  twostate predicate Kept(n: Node, inGroup: bool)
    reads n
  {
    && (if inGroup then n.arguments == old(n.arguments) else n.expressions == old(n.expressions))
    && n.expression == old(n.expression) && n.called == old(n.called)
  }

  method CopyOf(src: Node, ghost e: Expr, ghost S: set<Node>) returns (x: Node)
    requires Denotes(src, e, S)
    ensures fresh(x) && Same(x, src) && Denotes(x, e, S + {x})
  {
    x := new Node.Copy(src);
    CopyDenotes(x, src, e, S);
  }

  /** One copy into each of two nodes. */
  method CopyBoth(t: Node, src: Node, f: Node, src': Node, setter: Setter, ghost e: Expr, ghost e': Expr,
                  ghost S: set<Node>)
      returns (x: Node, y: Node)
    requires Denotes(src, e, S) && Denotes(src', e', S) && t !in S && f !in S && t != f
    modifies t, f
    ensures fresh(x) && fresh(y) && x != y && Same(x, src) && Same(y, src')
    ensures Put(t, x, setter) && Put(f, y, setter)
    ensures Denotes(x, e, S + {x}) && Denotes(y, e', S + {y})
  {
    KindDenoted(src, e, S);
    KindDenoted(src', e', S);
    hide Denotes, DenotesOperands, HeadOf;
    x, y := TwoCopies(src, src', e, e', S);
    SetBoth(t, x, f, y, setter);
  }

  method TwoCopies(src: Node, src': Node, ghost e: Expr, ghost e': Expr, ghost S: set<Node>)
      returns (x: Node, y: Node)
    requires Denotes(src, e, S) && Denotes(src', e', S)
    ensures fresh(x) && fresh(y) && x != y && Same(x, src) && Same(y, src')
    ensures Denotes(x, e, S + {x}) && Denotes(y, e', S + {y})
  {
    hide Denotes, DenotesOperands, Same;
    x := CopyOf(src, e, S);
    y := CopyOf(src', e', S);
  }

  method SetBoth(t: Node, x: Node, f: Node, y: Node, setter: Setter)
    requires t != f
    modifies t, f
    ensures Put(t, x, setter) && Put(f, y, setter)
  {
    Set(t, x, setter);
    Set(f, y, setter);
  }

  ghost function LastCondition(hits: seq<Expr>, default: Expr): Expr {
    if hits != [] && hits[|hits| - 1].Ternary? then hits[|hits| - 1].cond else default
  }

  lemma LastConditionAppend(hits: seq<Expr>, hits': seq<Expr>, default: Expr)
    requires AllTernary(hits')
    ensures LastCondition(hits + hits', default) == LastCondition(hits', LastCondition(hits, default))
  {
    if hits' == [] {
      assert hits + hits' == hits;
    } else {
      assert hits'[|hits'| - 1] in hits';
    }
  }

  /** Only a conditional index makes a difference between a group and a list of arguments. */
  lemma PlainItem(e: Expr, found: bool, inGroup: bool)
    requires !(inGroup && TernaryKey(e))
    ensures RaisesItem(e, found, inGroup) == RaisesItem(e, found, false)
    ensures HitsItem(e, found, inGroup) == HitsItem(e, found, false)
    ensures Pieces(e, found, inGroup, true) == [PickItem(e, found, true)]
    ensures Pieces(e, found, inGroup, false) == [PickItem(e, found, false)]
  {
  }

  lemma KeyedItem(e: Expr, found: bool)
    requires TernaryKey(e)
    ensures !RaisesItem(e, found, true) && HitsItem(e, found, true) == [e.key]
  {
  }

  lemma KeyDenoted(n: Node, e: Expr, S: set<Node>)
    requires Denotes(n, e, S)
    ensures n.head.kind == KIndex ==> |n.expressions| == 2
    ensures TernaryKey(e) <==> n.head.kind == KIndex && n.expressions[1].head.kind == KTernary
  {
    PartsDenote(n, e, S);
  }

  lemma NoItems(found: bool, inGroup: bool)
    ensures PickItems([], found, inGroup, true) == [] && PickItems([], found, inGroup, false) == []
    ensures HitsItems([], found, inGroup) == [] && !RaisesItems([], found, inGroup)
  {
  }

  /** What item i adds to the items before it. */
  lemma NextItem(items: seq<Expr>, i: nat, found: bool, inGroup: bool, default: Expr)
    requires i < |items|
    ensures var (init, all, item) := (items[..i], items[..i + 1], items[i]);
            var hits := HitsItems(init, found, inGroup);
            var now := found || hits != [];
            var next := HitsItem(item, now, inGroup);
            && HitsItems(all, found, inGroup) == hits + next
            && LastCondition(hits + next, default) == LastCondition(next, LastCondition(hits, default))
            && PickItems(all, found, inGroup, true)
               == PickItems(init, found, inGroup, true) + Pieces(item, now, inGroup, true)
            && PickItems(all, found, inGroup, false)
               == PickItems(init, found, inGroup, false) + Pieces(item, now, inGroup, false)
            && RaisesItems(all, found, inGroup) == (RaisesItems(init, found, inGroup) || RaisesItem(item, now, inGroup))
  {
    var hits := HitsItems(items[..i], found, inGroup);
    var now := found || hits != [];
    assert items[..i + 1][..i] == items[..i];
    ItemHitsAreTernary(items[i], now, inGroup);
    LastConditionAppend(hits, HitsItem(items[i], now, inGroup), default);
  }

  lemma SplitForm(e: Expr)
    requires AllTernary(Hits(e, false))
    ensures e.Ternary? ==> SplitOf(e) == Split(Some(e.cond), e.onTrue, e.onFalse)
    ensures !e.Ternary? && Raises(e, false) ==> SplitOf(e) == Raised
    ensures !e.Ternary? && !Raises(e, false) ==>
              SplitOf(e) == Split(if Hits(e, false) == [] then None else Some(LastCondition(Hits(e, false), e)),
                                  Pick(e, false, true), Pick(e, false, false))
  {
  }

  lemma ItemHitsAreTernary(item: Expr, found: bool, inGroup: bool)
    ensures AllTernary(HitsItem(item, found, inGroup))
  {
    HitsAreTernary(item, found);
  }

  class SplitTernaryExpression {
    var condition: Node?
    ghost var conditionExpr: Expr
    var trueExpression: Node?
    var falseExpression: Node?

    /** Splits an expression; not ok stands for the exception. Only the splitter and new
        nodes are written, so the input tree S still denotes e. */
    method Split(expression: Node, ghost e: Expr, ghost S: set<Node>)
      returns (ok: bool, ghost A: set<Node>, ghost B: set<Node>)
      requires Denotes(expression, e, S)
      modifies this
      ensures Denotes(expression, e, S) && unchanged(S)
      ensures ok == SplitOf(e).Split?
      ensures ok ==> fresh(A - S) && Denotes(trueExpression, SplitOf(e).onTrue, A)
      ensures ok ==> fresh(B - S) && Denotes(falseExpression, SplitOf(e).onFalse, B)
      ensures ok && SplitOf(e).condition.None? ==> condition == null
      ensures ok && SplitOf(e).condition.Some? ==>
                && condition != null && fresh(condition)
                && Denotes(condition, SplitOf(e).condition.value, S + {condition})
    {
      KindDenoted(expression, e, S);
      HitsAreTernary(e, false);
      SplitForm(e);
      hide Denotes, DenotesOperands, Pick, Raises, Hits, HeadOf, SplitOf;
      if expression.head.kind == KTernary {
        ok := true;
        A, B := SplitConditional(expression, e, S);
      } else {
        ok, A, B := SplitOther(expression, e, S);
      }
    }

    /** Everything but a conditional is copied and the copies are filled in. */
    method SplitOther(expression: Node, ghost e: Expr, ghost S: set<Node>)
        returns (ok: bool, ghost A: set<Node>, ghost B: set<Node>)
      requires Denotes(expression, e, S) && !e.Ternary?
      modifies this
      ensures ok == !Raises(e, false)
      ensures ok ==> fresh(A - S) && Denotes(trueExpression, Pick(e, false, true), A)
      ensures ok ==> fresh(B - S) && Denotes(falseExpression, Pick(e, false, false), B)
      ensures ok ==> Consistent(S) && conditionExpr == LastCondition(Hits(e, false), old(conditionExpr))
      ensures ok ==> if Hits(e, false) == [] then condition == null else condition != null && fresh(condition)
    {
      hide Denotes, DenotesOperands, Pick, Raises, Hits, LastCondition;
      trueExpression, falseExpression := TwoCopies(expression, expression, e, e, S);
      condition := null;
      ok, A, B := CopyExpression(expression, trueExpression, falseExpression, e, S);
    }

    method SplitConditional(expression: Node, ghost e: Expr, ghost S: set<Node>)
        returns (ghost A: set<Node>, ghost B: set<Node>)
      requires Denotes(expression, e, S) && e.Ternary?
      modifies this
      ensures trueExpression != null && fresh(trueExpression) && A == S + {trueExpression}
      ensures falseExpression != null && fresh(falseExpression) && B == S + {falseExpression}
      ensures Denotes(trueExpression, e.onTrue, A) && Denotes(falseExpression, e.onFalse, B)
      ensures condition != null && fresh(condition) && conditionExpr == e.cond && Consistent(S)
    {
      PartsDenote(expression, e, S);
      hide Denotes, DenotesOperands;
      TakeCondition(expression.ifExpression, e.cond, S);
      trueExpression, falseExpression :=
        TwoCopies(expression.thenExpression, expression.elseExpression, e.onTrue, e.onFalse, S);
      A, B := S + {trueExpression}, S + {falseExpression};
    }

    /** Puts a copy of next, or of its two branches, into the two copies under construction.
        Returns whether next still has to be traversed, and the two new nodes. */
    method ApplyCopy(next: Node, t: Node, f: Node, setter: Setter, ghost e: Expr, ghost S: set<Node>)
        returns (more: bool, x: Node, y: Node)
      requires Denotes(next, e, S) && t !in S && f !in S && t != f
      requires Consistent(S) && condition !in {t, f}
      modifies this`condition, this`conditionExpr, t, f
      ensures fresh(x) && fresh(y) && x != y && more == !e.Ternary?
      ensures Put(t, x, setter) && Put(f, y, setter)
      ensures more ==> Same(x, next) && Same(y, next)
      ensures !more ==> Denotes(x, e.onTrue, S + {x}) && Denotes(y, e.onFalse, S + {y})
      ensures Recorded(if more then [] else [e]) && Consistent(S) && condition !in {x, y}
    {
      KindDenoted(next, e, S);
      hide Denotes, DenotesOperands, HeadOf;
      if next.head.kind == KTernary {
        x, y := CopyBranches(next, t, f, setter, e, S);
        more := false;
      } else {
        x, y := CopyBoth(t, next, f, next, setter, e, e, S);
        more := true;
      }
    }

    method CopyBranches(next: Node, t: Node, f: Node, setter: Setter, ghost e: Expr, ghost S: set<Node>)
        returns (x: Node, y: Node)
      requires Denotes(next, e, S) && e.Ternary? && t !in S && f !in S && t != f
      modifies this`condition, this`conditionExpr, t, f
      ensures fresh(x) && fresh(y) && x != y
      ensures Put(t, x, setter) && Put(f, y, setter)
      ensures Recorded([e]) && Consistent(S) && condition !in {x, y}
      ensures Denotes(x, e.onTrue, S + {x}) && Denotes(y, e.onFalse, S + {y})
    {
      PartsDenote(next, e, S);
      hide Denotes, DenotesOperands, Put;
      x, y := CopyBoth(t, next.thenExpression, f, next.elseExpression, setter, e.onTrue, e.onFalse, S);
      TakeCondition(next.ifExpression, e.cond, S);
    }

    method TakeCondition(src: Node, ghost e: Expr, ghost S: set<Node>)
      requires Denotes(src, e, S)
      modifies this`condition, this`conditionExpr
      ensures condition != null && fresh(condition) && conditionExpr == e && Consistent(S)
    {
      condition := CopyOf(src, e, S);
      conditionExpr := e;
    }

    /** The recorded condition denotes conditionExpr. */
    ghost predicate Consistent(S: set<Node>)
      reads this, S, if condition == null then {} else {condition}
    {
      condition != null ==> Denotes(condition, conditionExpr, S + {condition})
    }

    /** A traversal with these hits leaves the last one's condition, or what was there. */
    twostate predicate Recorded(hits: seq<Expr>)
      reads this
    {
      && conditionExpr == LastCondition(hits, old(conditionExpr))
      && (if hits == [] then condition == old(condition) else condition != null && fresh(condition))
    }

    /** Copies one operand into both sides and traverses it unless it is a conditional.
        A and B are the nodes that make up the two results: S and nodes created here. */
    method CopyOperand(next: Node, t: Node, f: Node, setter: Setter, ghost e: Expr, ghost S: set<Node>)
        returns (ok: bool, x: Node, y: Node, ghost A: set<Node>, ghost B: set<Node>)
      requires Denotes(next, e, S) && t !in S && f !in S && t != f
      requires Consistent(S) && condition !in {t, f}
      modifies this`condition, this`conditionExpr, t, f
      ensures ok == !RaisesItem(e, old(condition) != null, false)
      ensures Put(t, x, setter) && Put(f, y, setter)
      ensures S <= A && S <= B && fresh(A - S) && fresh(B - S)
      ensures ok ==> Denotes(x, PickItem(e, old(condition) != null, true), A)
      ensures ok ==> Denotes(y, PickItem(e, old(condition) != null, false), B)
      ensures ok ==> Recorded(HitsItem(e, old(condition) != null, false))
      ensures ok ==> Consistent(S)
      decreases e, 1
    {
      hide Denotes, DenotesOperands, Pick, Raises, Hits;
      var more;
      more, x, y := ApplyCopy(next, t, f, setter, e, S);
      if more {
        ok, A, B := CopyExpression(next, x, y, e, S);
      } else {
        ok, A, B := true, S + {x}, S + {y};
      }
    }

    /** Fills in the shallow copies t and f of e. Not ok means an exception was raised. */
    method CopyExpression(e: Node, t: Node, f: Node, ghost ex: Expr, ghost S: set<Node>)
        returns (ok: bool, ghost A: set<Node>, ghost B: set<Node>)
      requires Denotes(e, ex, S) && t !in S && f !in S && t != f
      requires Same(t, e) && Same(f, e)
      requires Consistent(S) && condition !in {t, f}
      modifies this`condition, this`conditionExpr, t, f
      ensures ok == !Raises(ex, old(condition) != null)
      ensures S <= A && S <= B && fresh(A - S - {t}) && fresh(B - S - {f})
      ensures ok ==> Denotes(t, Pick(ex, old(condition) != null, true), A)
      ensures ok ==> Denotes(f, Pick(ex, old(condition) != null, false), B)
      ensures ok ==> Recorded(Hits(ex, old(condition) != null))
      ensures ok ==> Consistent(S)
      decreases ex, 0
    {
      A, B := S + {t}, S + {f};
      CopyDenotes(t, e, ex, S);
      CopyDenotes(f, e, ex, S);
      if condition != null { return true, A, B; }
      match e.head.kind
      case KTernary => return false, A, B;
      case KOpaque => return false, A, B;
      case KLeaf => return true, A, B;
      case KIndex => return true, A, B;
      case KWrap =>
        var x, y;
        PartsDenote(e, ex, S);
        ok, x, y, A, B := CopyOperand(e.expression, t, f, ToExpression, ex.inner, S);
        if ok {
          Assembled(t, Pick(ex, false, true), A);
          Assembled(f, Pick(ex, false, false), B);
        }
        A, B := A + {t}, B + {f};
      case KGroup =>
        t.expressions, f.expressions := [], [];
        ok, A, B := CopyItems(e.expressions, t, f, true, ex.items, S);
        if ok {
          Assembled(t, Pick(ex, false, true), A);
          Assembled(f, Pick(ex, false, false), B);
        }
        A, B := A + {t}, B + {f};
      case KCall =>
        ok, A, B := CopyCall(e, t, f, ex, S);
    }

    /** The called expression is copied before the arguments. */
    method CopyCall(e: Node, t: Node, f: Node, ghost ex: Expr, ghost S: set<Node>)
        returns (ok: bool, ghost A: set<Node>, ghost B: set<Node>)
      requires Denotes(e, ex, S) && ex.Call? && t !in S && f !in S && t != f
      requires Same(t, e) && Same(f, e)
      requires Consistent(S) && condition == null
      modifies this`condition, this`conditionExpr, t, f
      ensures ok == !Raises(ex, false)
      ensures S <= A && S <= B && fresh(A - S - {t}) && fresh(B - S - {f})
      ensures ok ==> Denotes(t, Pick(ex, false, true), A)
      ensures ok ==> Denotes(f, Pick(ex, false, false), B)
      ensures ok ==> Recorded(Hits(ex, false))
      ensures ok ==> Consistent(S)
      decreases ex, 0, 0
    {
      var x, y;
      ArgumentsDenote(e, ex, S);
      ok, x, y, A, B := CopyOperand(e.called, t, f, ToCalled, ex.called, S);
      if ok {
        ghost var now := condition != null;
        HitsItemsAreTernary(ex.args, now, false);
        LastConditionAppend(HitsItem(ex.called, false, false), HitsItems(ex.args, now, false), old(conditionExpr));
        ok, A, B := CopyArguments(e, t, f, ex, S, PickItem(ex.called, false, true), A,
                                  PickItem(ex.called, false, false), B);
      }
    }

    method CopyArguments(e: Node, t: Node, f: Node, ghost ex: Expr, ghost S: set<Node>,
                         ghost tc: Expr, ghost A0: set<Node>, ghost fc: Expr, ghost B0: set<Node>)
        returns (ok: bool, ghost A: set<Node>, ghost B: set<Node>)
      requires Denotes(e, ex, S) && ex.Call? && S <= A0 && S <= B0 && t !in A0 + B0 && f !in A0 + B0 && t != f
      requires t.head == f.head == HeadOf(ex)
      requires Denotes(t.called, tc, A0) && Denotes(f.called, fc, B0)
      requires Consistent(S) && condition !in {t, f}
      modifies this`condition, this`conditionExpr, t, f
      ensures ok == !RaisesItems(ex.args, old(condition) != null, false)
      ensures A0 <= A && B0 <= B && fresh(A - A0 - {t}) && fresh(B - B0 - {f})
      ensures ok ==> Denotes(t, Call(ex.tag, tc, PickItems(ex.args, old(condition) != null, false, true)), A)
      ensures ok ==> Denotes(f, Call(ex.tag, fc, PickItems(ex.args, old(condition) != null, false, false)), B)
      ensures ok ==> Recorded(HitsItems(ex.args, old(condition) != null, false))
      ensures ok ==> Consistent(S)
      decreases ex.args, 2
    {
      ArgumentsDenote(e, ex, S);
      KindDenoted(e, ex, S);
      hide Denotes, DenotesOperands, DenotesAll, PickItems, RaisesItems, HitsItems, LastCondition;
      ok, A, B := FillArguments(e.arguments, t, f, ex.args, S);
      assert Denotes(t.called, tc, A0) && Denotes(f.called, fc, B0);
      if ok {
        CallDenotes(t, ex.tag, tc, A0, PickItems(ex.args, old(condition) != null, false, true), A);
        CallDenotes(f, ex.tag, fc, B0, PickItems(ex.args, old(condition) != null, false, false), B);
      }
      A, B := A0 + A + {t}, B0 + B + {f};
    }

    /** The argument lists of t and f are rebuilt from empty ones. */
    method FillArguments(es: seq<Node>, t: Node, f: Node, ghost items: seq<Expr>, ghost S: set<Node>)
        returns (ok: bool, ghost A: set<Node>, ghost B: set<Node>)
      requires DenotesAll(es, items, S) && t !in S && f !in S && t != f
      requires Consistent(S) && condition !in {t, f}
      modifies this`condition, this`conditionExpr, t, f
      ensures ok == !RaisesItems(items, old(condition) != null, false)
      ensures t.called == old(t.called) && f.called == old(f.called)
      ensures S <= A && S <= B && fresh(A - S) && fresh(B - S)
      ensures ok ==> DenotesAll(t.arguments, PickItems(items, old(condition) != null, false, true), A)
      ensures ok ==> DenotesAll(f.arguments, PickItems(items, old(condition) != null, false, false), B)
      ensures ok ==> Recorded(HitsItems(items, old(condition) != null, false))
      ensures ok ==> Consistent(S)
      decreases items, 1
    {
      t.arguments, f.arguments := [], [];
      assert DenotesAll(es, items, S);
      hide Denotes, DenotesOperands, DenotesAll, PickItems, RaisesItems, HitsItems, LastCondition;
      ok, A, B := CopyItems(es, t, f, false, items, S);
    }

    /** One item of a list. An index access with a ternary index is split on its own and its
        index is then treated as an item, too. */
    method CopyItem(next: Node, t: Node, f: Node, inGroup: bool, ghost e: Expr, ghost S: set<Node>)
        returns (ok: bool, ghost xs: seq<Node>, ghost ys: seq<Node>, ghost A: set<Node>, ghost B: set<Node>)
      requires Denotes(next, e, S) && t !in S && f !in S && t != f
      requires Consistent(S) && condition !in {t, f}
      modifies this`condition, this`conditionExpr, t, f
      ensures ok == !RaisesItem(e, old(condition) != null, inGroup)
      ensures Grown(t, xs, inGroup) && Grown(f, ys, inGroup)
      ensures S <= A && S <= B && fresh(A - S) && fresh(B - S)
      ensures ok ==> DenotesAll(xs, Pieces(e, old(condition) != null, inGroup, true), A)
      ensures ok ==> DenotesAll(ys, Pieces(e, old(condition) != null, inGroup, false), B)
      ensures ok ==> Recorded(HitsItem(e, old(condition) != null, inGroup))
      ensures ok ==> Consistent(S)
      decreases e, 3
    {
      KeyDenoted(next, e, S);
      hide Denotes, DenotesOperands, DenotesAll, PickItem, HitsItem, Pieces, LastCondition, HeadOf, Grown, Recorded;
      if inGroup && next.head.kind == KIndex && next.expressions[1].head.kind == KTernary {
        ok := true;
        KeyedItem(e, condition != null);
        xs, ys, A, B := CopyKeyed(next, t, f, e, S);
      } else {
        ok, xs, ys, A, B := CopyPlain(next, t, f, inGroup, e, S);
      }
    }

    /** An item that contributes one entry. */
    method CopyPlain(next: Node, t: Node, f: Node, inGroup: bool, ghost e: Expr, ghost S: set<Node>)
        returns (ok: bool, ghost xs: seq<Node>, ghost ys: seq<Node>, ghost A: set<Node>, ghost B: set<Node>)
      requires Denotes(next, e, S) && t !in S && f !in S && t != f && !(inGroup && TernaryKey(e))
      requires Consistent(S) && condition !in {t, f}
      modifies this`condition, this`conditionExpr, t, f
      ensures ok == !RaisesItem(e, old(condition) != null, inGroup)
      ensures Grown(t, xs, inGroup) && Grown(f, ys, inGroup)
      ensures S <= A && S <= B && fresh(A - S) && fresh(B - S)
      ensures ok ==> DenotesAll(xs, Pieces(e, old(condition) != null, inGroup, true), A)
      ensures ok ==> DenotesAll(ys, Pieces(e, old(condition) != null, inGroup, false), B)
      ensures ok ==> Recorded(HitsItem(e, old(condition) != null, inGroup))
      ensures ok ==> Consistent(S)
      decreases e, 2
    {
      PlainItem(e, condition != null, inGroup);
      hide Denotes, DenotesOperands, DenotesAll, PickItem, RaisesItem, HitsItem, Pieces, LastCondition;
      var x, y;
      ok, x, y, A, B := CopyOperand(next, t, f, if inGroup then ToExpressions else ToArguments, e, S);
      xs, ys := [x], [y];
      if ok {
        OneDenotes(x, PickItem(e, old(condition) != null, true), A);
        OneDenotes(y, PickItem(e, old(condition) != null, false), B);
      }
    }

    method CopyKeyed(next: Node, t: Node, f: Node, ghost e: Expr, ghost S: set<Node>)
        returns (ghost xs: seq<Node>, ghost ys: seq<Node>, ghost A: set<Node>, ghost B: set<Node>)
      requires Denotes(next, e, S) && TernaryKey(e) && t !in S && f !in S && t != f
      modifies this`condition, this`conditionExpr, t, f
      ensures Grown(t, xs, true) && Grown(f, ys, true)
      ensures S <= A && S <= B && fresh(A - S) && fresh(B - S)
      ensures forall found :: DenotesAll(xs, Pieces(e, found, true, true), A)
      ensures forall found :: DenotesAll(ys, Pieces(e, found, true, false), B)
      ensures Recorded([e.key]) && Consistent(S)
    {
      var a, x, b, y := CopyAccess(next, t, f, e, S);
      xs, A := AccessPieces(a, x, e, S, true);
      ys, B := AccessPieces(b, y, e, S, false);
    }

    method CopyAccess(next: Node, t: Node, f: Node, ghost e: Expr, ghost S: set<Node>)
        returns (a: Node, x: Node, b: Node, y: Node)
      requires Denotes(next, e, S) && TernaryKey(e) && t !in S && f !in S && t != f
      modifies this`condition, this`conditionExpr, t, f
      ensures fresh(a) && fresh(x) && fresh(b) && fresh(y)
      ensures Grown(t, [a, x], true) && Grown(f, [b, y], true)
      ensures Denotes(a, Index(e.tag, e.base, e.key.onTrue), S + {a}) && Denotes(x, e.key.onTrue, S + {x})
      ensures Denotes(b, Index(e.tag, e.base, e.key.onFalse), S + {b}) && Denotes(y, e.key.onFalse, S + {y})
      ensures Recorded([e.key]) && Consistent(S)
    {
      PartsDenote(next, e, S);
      hide Denotes, DenotesOperands, LastCondition, Consistent;
      var right := next.expressions[1];
      a, b := NewAccesses(next, right, t, f, e, S);
      x, y := CopyChosen(right, t, f, a, b, e, S);
      assert old(t.expressions) + [a, x] == old(t.expressions) + [a] + [x];
      assert old(f.expressions) + [b, y] == old(f.expressions) + [b] + [y];
    }

    /** The chosen index goes behind the new access on each side, which it leaves alone. */
    method CopyChosen(right: Node, t: Node, f: Node, a: Node, b: Node, ghost e: Expr, ghost S: set<Node>)
        returns (x: Node, y: Node)
      requires TernaryKey(e) && Denotes(right, e.key, S) && t !in S && f !in S && t != f && {a, b} !! {t, f}
      requires Denotes(a, Index(e.tag, e.base, e.key.onTrue), S + {a})
      requires Denotes(b, Index(e.tag, e.base, e.key.onFalse), S + {b})
      modifies this`condition, this`conditionExpr, t, f
      ensures fresh(x) && fresh(y)
      ensures Grown(t, [x], true) && Grown(f, [y], true)
      ensures Recorded([e.key]) && Consistent(S)
      ensures Denotes(a, Index(e.tag, e.base, e.key.onTrue), S + {a}) && Denotes(x, e.key.onTrue, S + {x})
      ensures Denotes(b, Index(e.tag, e.base, e.key.onFalse), S + {b}) && Denotes(y, e.key.onFalse, S + {y})
    {
      hide Denotes, DenotesOperands, LastCondition, Consistent, Recorded;
      x, y := CopyBranches(right, t, f, ToExpressions, e.key, S);
    }

    method NewAccesses(next: Node, right: Node, t: Node, f: Node, ghost e: Expr, ghost S: set<Node>)
        returns (a: Node, b: Node)
      requires Denotes(next, e, S) && TernaryKey(e) && t !in S && f !in S && t != f
      requires |next.expressions| == 2 && right == next.expressions[1]
      modifies t, f
      ensures fresh(a) && fresh(b) && Grown(t, [a], true) && Grown(f, [b], true)
      ensures Denotes(a, Index(e.tag, e.base, e.key.onTrue), S + {a})
      ensures Denotes(b, Index(e.tag, e.base, e.key.onFalse), S + {b})
    {
      PartsDenote(next, e, S);
      PartsDenote(right, e.key, S);
      a := NewAccess(t, next.expressions[0], right.thenExpression, next.head.tag, e.base, e.key.onTrue, S);
      b := NewAccess(f, next.expressions[0], right.elseExpression, next.head.tag, e.base, e.key.onFalse, S);
    }

    method NewAccess(n: Node, left: Node, right: Node, tag: string, ghost l: Expr, ghost r: Expr, ghost S: set<Node>)
        returns (a: Node)
      requires Denotes(left, l, S) && Denotes(right, r, S) && n !in S
      modifies n
      ensures fresh(a) && Denotes(a, Index(tag, l, r), S + {a}) && Put(n, a, ToExpressions)
    {
      a := new Node.IndexAccess(left, right, tag);
      Assembled(a, Index(tag, l, r), S);
      Set(n, a, ToExpressions);
    }

    /** Appends what one item contributes to the lists built so far, te and fe. */
    method CopyNext(next: Node, t: Node, f: Node, inGroup: bool, ghost item: Expr, ghost S: set<Node>,
                    ghost te: seq<Expr>, ghost A0: set<Node>, ghost fe: seq<Expr>, ghost B0: set<Node>)
        returns (ok: bool, ghost A: set<Node>, ghost B: set<Node>)
      requires Denotes(next, item, S) && S <= A0 && S <= B0 && t !in A0 + B0 && f !in A0 + B0 && t != f
      requires DenotesAll(List(t, inGroup), te, A0) && DenotesAll(List(f, inGroup), fe, B0)
      requires Consistent(S) && condition !in {t, f}
      modifies this`condition, this`conditionExpr, t, f
      ensures ok == !RaisesItem(item, old(condition) != null, inGroup)
      ensures Kept(t, inGroup) && Kept(f, inGroup)
      ensures A0 <= A && B0 <= B && fresh(A - A0) && fresh(B - B0)
      ensures ok ==> DenotesAll(List(t, inGroup), te + Pieces(item, old(condition) != null, inGroup, true), A)
      ensures ok ==> DenotesAll(List(f, inGroup), fe + Pieces(item, old(condition) != null, inGroup, false), B)
      ensures ok ==> Recorded(HitsItem(item, old(condition) != null, inGroup))
      ensures ok ==> Consistent(S)
      decreases item, 4
    {
      ghost var now := condition != null;
      ghost var ts, fs := List(t, inGroup), List(f, inGroup);
      ghost var xs, ys;
      ok, xs, ys, A, B := CopyItem(next, t, f, inGroup, item, S);
      if ok {
        DenotesAllAppend(ts, te, A0, xs, Pieces(item, now, inGroup, true), A);
        DenotesAllAppend(fs, fe, B0, ys, Pieces(item, now, inGroup, false), B);
      }
      A, B := A0 + A, B0 + B;
    }

    /** The items of one list, from the left; the lists of t and f start out empty. */
    method CopyItems(es: seq<Node>, t: Node, f: Node, inGroup: bool, ghost items: seq<Expr>, ghost S: set<Node>)
        returns (ok: bool, ghost A: set<Node>, ghost B: set<Node>)
      requires DenotesAll(es, items, S) && t !in S && f !in S && t != f
      requires List(t, inGroup) == [] && List(f, inGroup) == []
      requires Consistent(S) && condition !in {t, f}
      modifies this`condition, this`conditionExpr, t, f
      ensures ok == !RaisesItems(items, old(condition) != null, inGroup)
      ensures Kept(t, inGroup) && Kept(f, inGroup)
      ensures S <= A && S <= B && fresh(A - S) && fresh(B - S)
      ensures ok ==> DenotesAll(List(t, inGroup), PickItems(items, old(condition) != null, inGroup, true), A)
      ensures ok ==> DenotesAll(List(f, inGroup), PickItems(items, old(condition) != null, inGroup, false), B)
      ensures ok ==> Recorded(HitsItems(items, old(condition) != null, inGroup))
      ensures ok ==> Consistent(S)
      decreases items, 0
    {
      hide Denotes, DenotesOperands, HitsItem, Pieces, RaisesItem, PickItem, HitsItems, PickItems, RaisesItems;
      ghost var found := condition != null;
      NoItems(found, inGroup);
      assert items[..0] == [];
      A, B := S, S;
      for i := 0 to |es|
        invariant Kept(t, inGroup) && Kept(f, inGroup)
        invariant S <= A && S <= B && fresh(A - S) && fresh(B - S)
        invariant !RaisesItems(items[..i], found, inGroup)
        invariant DenotesAll(List(t, inGroup), PickItems(items[..i], found, inGroup, true), A)
        invariant DenotesAll(List(f, inGroup), PickItems(items[..i], found, inGroup, false), B)
        invariant Recorded(HitsItems(items[..i], found, inGroup)) && Consistent(S)
      {
        ghost var init, now := items[..i], condition != null;
        NextItem(items, i, found, inGroup, old(conditionExpr));
        ok, A, B := CopyNext(es[i], t, f, inGroup, items[i], S,
                             PickItems(init, found, inGroup, true), A, PickItems(init, found, inGroup, false), B);
        if !ok {
          RaisesPrefix(items, i + 1, found, inGroup);
          return;
        }
      }
      ok := true;
      assert items[..|es|] == items;
    }
  }
}
