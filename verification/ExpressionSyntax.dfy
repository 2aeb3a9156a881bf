/** Expression trees of the Solidity front end, seen as values, and their meaning
    under an arbitrary pure compositional semantics. */
module ExpressionSyntax {
  /** Expression classes, grouped by the field that holds their operands.
      Leaf: literals, identifiers, `new` expressions and type names.
      Wrap: member access, type conversion, unary operation (`_expression`).
      Group: assignment and binary operation (binary), tuple (not binary) (`_expressions`).
      Call: `_called` and `_arguments`.
      Opaque: anything the splitter has no case for. */
  datatype Expr =
    | Leaf(tag: string)
    | Index(tag: string, base: Expr, key: Expr)
    | Wrap(tag: string, inner: Expr)
    | Group(tag: string, binary: bool, items: seq<Expr>)
    | Call(tag: string, called: Expr, args: seq<Expr>)
    | Ternary(cond: Expr, onTrue: Expr, onFalse: Expr)
    | Opaque(tag: string)

  /** One interpretation of every operator. Operands are evaluated without side effects. */
  datatype Semantics<!V> = Semantics(
    leaf: string -> V,
    index: (string, V, V) -> V,
    wrap: (string, V) -> V,
    group: (string, bool, seq<V>) -> V,
    call: (string, V, seq<V>) -> V,
    other: string -> V,
    truth: V -> bool)

  /** The accessors of a binary node read positions 0 and 1 only; a tuple reads all of them. */
  function Read<V>(binary: bool, vs: seq<V>): seq<V> {
    if binary && |vs| > 2 then vs[..2] else vs
  }

  function Eval<V>(sem: Semantics<V>, e: Expr): V
    decreases e
  {
    match e
    case Leaf(tag) => sem.leaf(tag)
    case Index(tag, base, key) => sem.index(tag, Eval(sem, base), Eval(sem, key))
    case Wrap(tag, inner) => sem.wrap(tag, Eval(sem, inner))
    case Group(tag, binary, items) => sem.group(tag, binary, Read(binary, EvalAll(sem, items)))
    case Call(tag, called, args) => sem.call(tag, Eval(sem, called), EvalAll(sem, args))
    case Ternary(cond, onTrue, onFalse) =>
      if sem.truth(Eval(sem, cond)) then Eval(sem, onTrue) else Eval(sem, onFalse)
    case Opaque(tag) => sem.other(tag)
  }

  function EvalAll<V>(sem: Semantics<V>, es: seq<Expr>): (vs: seq<V>)
    ensures |vs| == |es|
    ensures forall i :: 0 <= i < |es| ==> vs[i] == Eval(sem, es[i])
    decreases es
  {
    if es == [] then [] else EvalAll(sem, es[..|es| - 1]) + [Eval(sem, es[|es| - 1])]
  }

  lemma EvalAllAppend<V>(sem: Semantics<V>, xs: seq<Expr>, ys: seq<Expr>)
    ensures EvalAll(sem, xs + ys) == EvalAll(sem, xs) + EvalAll(sem, ys)
  {
  }

  lemma EvalAllOne<V>(sem: Semantics<V>, e: Expr)
    ensures EvalAll(sem, [e]) == [Eval(sem, e)]
  {
  }

  /** Number of conditional expressions in e, at any depth. */
  function Count(e: Expr): nat
    decreases e
  {
    match e
    case Leaf(_) => 0
    case Index(_, base, key) => Count(base) + Count(key)
    case Wrap(_, inner) => Count(inner)
    case Group(_, _, items) => CountAll(items)
    case Call(_, called, args) => Count(called) + CountAll(args)
    case Ternary(cond, onTrue, onFalse) => 1 + Count(cond) + Count(onTrue) + Count(onFalse)
    case Opaque(_) => 0
  }

  function CountAll(es: seq<Expr>): nat
    decreases es
  {
    if es == [] then 0 else CountAll(es[..|es| - 1]) + Count(es[|es| - 1])
  }

  lemma {:induction false} CountAllAt(es: seq<Expr>, i: nat)
    requires i < |es|
    ensures Count(es[i]) <= CountAll(es)
  {
    if i < |es| - 1 { CountAllAt(es[..|es| - 1], i); }
  }

  /** An index access whose index is itself a conditional expression. */
  predicate TernaryKey(e: Expr) { e.Index? && e.key.Ternary? }
}
