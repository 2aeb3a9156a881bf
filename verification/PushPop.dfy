/**
 * Lowering of `push` and `pop` on storage arrays to primitive operations, and
 * a machine that runs those operations on storage. The reference is an array
 * that grows and shrinks at its end.
 *
 * A reference variable names a storage location; reading or writing it reads
 * or writes that location at that moment. Arithmetic is on 256-bit words,
 * checked or wrapping according to the scope of the statement.
 */
module PushPop {

  import opened Collections

  datatype Value = Word(n: nat) | Items(items: seq<Value>)

  /** An array and the zero value of its element type. */
  datatype Arr = Arr(id: nat, zero: Value)

  datatype Loc = LengthOf(a: Arr) | Element(a: Arr, i: nat)

  datatype Var = Ref(id: nat) | Tmp(id: nat) | Local(id: nat) | Const(n: nat)

  datatype Kind = Addition | Subtraction

  datatype Op =
    | Length(ref: nat, a: Arr)
    | Assign(dst: Var, src: Var)
    | Binary(dst: Var, left: Var, right: Var, kind: Kind)
    | Index(ref: nat, a: Arr, at: Var)
    | Delete(ref: nat)
    | InitArray(dst: Var, items: seq<Var>)

  /** The argument of a push; a list is an array literal. */
  datatype Argument = Absent | Operand(v: Var) | Literal(items: seq<Var>)

  datatype Statement = Push(a: Arr, arg: Argument, lvalue: Var) | Pop(a: Arr)

  // ---------------------------------------------------------------- the machine

  const WORD_SIZE: nat := 0x1_0000000000000000_0000000000000000_0000000000000000_0000000000000000

  datatype State = State(store: map<Loc, Value>, refs: map<nat, Loc>, env: map<Var, Value>)

  datatype Reason = Arithmetic | OutOfBounds

  /** `Stuck` is an undefined variable or an operand of the wrong kind. */
  datatype Outcome = Ok(s: State) | Revert(why: Reason) | Stuck

  function Read(store: map<Loc, Value>, l: Loc): Value {
    if l in store then store[l] else if l.LengthOf? then Word(0) else l.a.zero
  }

  function ReadVar(s: State, v: Var): Option<Value> {
    match v
    case Const(n) => Some(Word(n))
    case Ref(r) => if r in s.refs then Some(Read(s.store, s.refs[r])) else None
    case _ => if v in s.env then Some(s.env[v]) else None
  }

  function Write(s: State, v: Var, x: Value): Outcome {
    match v
    case Const(_) => Stuck
    case Ref(r) => if r in s.refs then Ok(s.(store := s.store[s.refs[r] := x])) else Stuck
    case _ => Ok(s.(env := s.env[v := x]))
  }

  function Arith(checked: bool, kind: Kind, m: nat, n: nat): Option<nat> {
    var exact := if kind == Addition then m + n else m - n;
    if 0 <= exact < WORD_SIZE then Some(exact)
    else if checked then None
    else Some(exact % WORD_SIZE)
  }

  function ReadAll(s: State, items: seq<Var>): Option<seq<Value>> {
    if forall k :: 0 <= k < |items| ==> ReadVar(s, items[k]).Some?
    then Some(seq(|items|, k requires 0 <= k < |items| && ReadVar(s, items[k]).Some? => ReadVar(s, items[k]).value))
    else None
  }

  function Exec(checked: bool, s: State, op: Op): Outcome {
    match op
    case Length(r, a) => Ok(s.(refs := s.refs[r := LengthOf(a)]))
    case Assign(dst, src) =>
      var x := ReadVar(s, src);
      if x.Some? then Write(s, dst, x.value) else Stuck
    case Binary(dst, left, right, kind) =>
      var x, y := ReadVar(s, left), ReadVar(s, right);
      if x.Some? && y.Some? && x.value.Word? && y.value.Word? then
        var z := Arith(checked, kind, x.value.n, y.value.n);
        if z.Some? then Write(s, dst, Word(z.value)) else Revert(Arithmetic)
      else Stuck
    case Index(r, a, at) =>
      var i, len := ReadVar(s, at), Read(s.store, LengthOf(a));
      if i.Some? && i.value.Word? && len.Word? then
        if i.value.n < len.n then Ok(s.(refs := s.refs[r := Element(a, i.value.n)])) else Revert(OutOfBounds)
      else Stuck
    case Delete(r) =>
      if r in s.refs then Ok(s.(store := s.store[s.refs[r] := Read(map[], s.refs[r])])) else Stuck
    case InitArray(dst, items) =>
      var xs := ReadAll(s, items);
      if xs.Some? then Write(s, dst, Items(xs.value)) else Stuck
  }

  function ExecAll(checked: bool, s: State, ops: seq<Op>): Outcome
    decreases |ops|
  {
    if ops == [] then Ok(s)
    else
      var o := Exec(checked, s, ops[0]);
      if o.Ok? then ExecAll(checked, o.s, ops[1..]) else o
  }

  lemma {:induction false} ExecAppend(checked: bool, s: State, p: seq<Op>, q: seq<Op>)
    ensures ExecAll(checked, s, p + q)
         == var o := ExecAll(checked, s, p); if o.Ok? then ExecAll(checked, o.s, q) else o
    decreases |p|
  {
    if p == [] {
      assert p + q == q;
    } else {
      assert (p + q)[1..] == p[1..] + q;
      var o := Exec(checked, s, p[0]);
      if o.Ok? { ExecAppend(checked, o.s, p[1..], q); }
    }
  }

  // ---------------------------------------------------------------- the lowering

  function ExpandOps(a: Arr, r: nat, t: nat): seq<Op> {
    [Length(r, a), Assign(Tmp(t), Ref(r)), Binary(Tmp(t + 1), Tmp(t), Const(1), Addition), Assign(Ref(r), Tmp(t + 1))]
  }

  function SetOps(a: Arr, arg: Argument, lvalue: Var, len: Var, r: nat, t: nat): seq<Op> {
    [Index(r, a, len)] +
    match arg
    case Absent => [Assign(lvalue, Ref(r))]
    case Operand(v) => [Assign(Ref(r), v)]
    case Literal(items) => [InitArray(Tmp(t), items), Assign(Ref(r), Tmp(t))]
  }

  function PushOps(a: Arr, arg: Argument, lvalue: Var, r: nat, t: nat): seq<Op> {
    ExpandOps(a, r, t) + SetOps(a, arg, lvalue, Tmp(t), r + 1, t + 2)
  }

  function PopOps(a: Arr, r: nat, t: nat): seq<Op> {
    [Length(r, a), Binary(Tmp(t), Ref(r), Const(1), Subtraction), Index(r + 1, a, Tmp(t)),
     Delete(r + 1), Length(r + 2, a), Assign(Ref(r + 2), Tmp(t))]
  }

  function OpsOf(st: Statement, r: nat, t: nat): seq<Op> {
    match st
    case Push(a, arg, lvalue) => PushOps(a, arg, lvalue, r, t)
    case Pop(a) => PopOps(a, r, t)
  }

  function RefsUsed(st: Statement): nat {
    if st.Push? then 2 else 3
  }

  function TmpsUsed(st: Statement): nat {
    if st.Pop? then 1 else if st.arg.Literal? then 3 else 2
  }

  class Lowering {
    var refs: nat       // next reference variable
    var tmps: nat       // next temporary variable
    var ret: seq<Op>

    constructor ()
      ensures refs == 0 && tmps == 0 && ret == []
    {
      refs, tmps, ret := 0, 0, [];
    }

    method NewReference() returns (r: nat)
      modifies this`refs
      ensures r == old(refs) && refs == old(refs) + 1
    {
      r := refs;
      refs := refs + 1;
    }

    method NewTemporary() returns (v: Var)
      modifies this`tmps
      ensures v == Tmp(old(tmps)) && tmps == old(tmps) + 1
    {
      v := Tmp(tmps);
      tmps := tmps + 1;
    }

    /** Reads the length into a temporary and stores it back increased by one. */
    method PushExpandArr(a: Arr) returns (lengthVal: Var)
      modifies this
      ensures ret == old(ret) + ExpandOps(a, old(refs), old(tmps))
      ensures lengthVal == Tmp(old(tmps)) && refs == old(refs) + 1 && tmps == old(tmps) + 2
    {
      var length := NewReference();
      ret := ret + [Length(length, a)];
      lengthVal := NewTemporary();
      ret := ret + [Assign(lengthVal, Ref(length))];
      var newLengthVal := NewTemporary();
      ret := ret + [Binary(newLengthVal, lengthVal, Const(1), Addition)];
      ret := ret + [Assign(Ref(length), newLengthVal)];
    }

    method PushSetVal(a: Arr, arg: Argument, lvalue: Var, lengthVal: Var)
      modifies this
      ensures ret == old(ret) + SetOps(a, arg, lvalue, lengthVal, old(refs), old(tmps))
      ensures refs == old(refs) + 1 && tmps == old(tmps) + if arg.Literal? then 1 else 0
    {
      var element := NewReference();
      ret := ret + [Index(element, a, lengthVal)];
      if arg != Absent {
        var value: Var;
        if arg.Literal? {
          value := NewTemporary();
          ret := ret + [InitArray(value, arg.items)];
        } else {
          value := arg.v;
        }
        ret := ret + [Assign(Ref(element), value)];
      } else {
        ret := ret + [Assign(lvalue, Ref(element))];
      }
    }

    method ConvertToPush(a: Arr, arg: Argument, lvalue: Var)
      modifies this
      ensures ret == PushOps(a, arg, lvalue, old(refs), old(tmps))
      ensures refs == old(refs) + RefsUsed(Push(a, arg, lvalue)) && tmps == old(tmps) + TmpsUsed(Push(a, arg, lvalue))
    {
      ret := [];
      var lengthVal := PushExpandArr(a);
      PushSetVal(a, arg, lvalue, lengthVal);
    }

    method ConvertToPop(a: Arr)
      modifies this
      ensures ret == PopOps(a, old(refs), old(tmps))
      ensures refs == old(refs) + RefsUsed(Pop(a)) && tmps == old(tmps) + TmpsUsed(Pop(a))
    {
      ret := [];
      var length := NewReference();
      ret := ret + [Length(length, a)];
      var val := NewTemporary();
      ret := ret + [Binary(val, Ref(length), Const(1), Subtraction)];
      var element := NewReference();
      ret := ret + [Index(element, a, val)];
      ret := ret + [Delete(element)];
      var lengthToAssign := NewReference();
      ret := ret + [Length(lengthToAssign, a)];
      ret := ret + [Assign(Ref(lengthToAssign), val)];
    }
  }

  // ---------------------------------------------------------------- abstract arrays

  datatype Abstract = Abstract(arrays: map<Arr, seq<Value>>, refs: map<nat, Loc>, env: map<Var, Value>)

  datatype Result = Done(ab: Abstract) | Reverts | Undefined

  function Content(arrays: map<Arr, seq<Value>>, a: Arr): seq<Value> {
    if a in arrays then arrays[a] else []
  }

  function At(arrays: map<Arr, seq<Value>>, l: Loc): Value {
    match l
    case LengthOf(a) => Word(|Content(arrays, a)|)
    case Element(a, i) => if i < |Content(arrays, a)| then Content(arrays, a)[i] else a.zero
  }

  function Lookup(ab: Abstract, v: Var): Option<Value> {
    match v
    case Const(n) => Some(Word(n))
    case Ref(r) => if r in ab.refs then Some(At(ab.arrays, ab.refs[r])) else None
    case _ => if v in ab.env then Some(ab.env[v]) else None
  }

  function LookupAll(ab: Abstract, items: seq<Var>): Option<seq<Value>> {
    if forall k :: 0 <= k < |items| ==> Lookup(ab, items[k]).Some?
    then Some(seq(|items|, k requires 0 <= k < |items| && Lookup(ab, items[k]).Some? => Lookup(ab, items[k]).value))
    else None
  }

  /** What a push appends: its argument, evaluated before the push. */
  function Pushed(ab: Abstract, a: Arr, arg: Argument): Option<Value> {
    match arg
    case Absent => Some(a.zero)
    case Operand(v) => Lookup(ab, v)
    case Literal(items) => var xs := LookupAll(ab, items); if xs.Some? then Some(Items(xs.value)) else None
  }

  function Appended(ab: Abstract, a: Arr, x: Value): Abstract {
    ab.(arrays := ab.arrays[a := Content(ab.arrays, a) + [x]])
  }

  function PushResult(ab: Abstract, a: Arr, arg: Argument, lvalue: Var, x: Value): Abstract {
    var grown := Appended(ab, a, x);
    if arg.Absent? then grown.(env := grown.env[lvalue := x]) else grown
  }

  function Perform(ab: Abstract, st: Statement): Result {
    var c := Content(ab.arrays, st.a);
    match st
    case Push(a, arg, lvalue) =>
      var x := Pushed(ab, a, arg);
      if x.None? then Undefined
      else if |c| + 1 >= WORD_SIZE then Reverts
      else Done(PushResult(ab, a, arg, lvalue, x.value))
    case Pop(a) =>
      if c == [] then Reverts else Done(ab.(arrays := ab.arrays[a := c[..|c| - 1]]))
  }

  /** Statements from the `k`-th on. */
  function PerformAll(ab: Abstract, sts: seq<Statement>, k: nat): Result
    requires k <= |sts|
    decreases |sts| - k
  {
    if k == |sts| then Done(ab)
    else
      var r := Perform(ab, sts[k]);
      if r.Done? then PerformAll(r.ab, sts, k + 1) else r
  }

  function LowerAll(sts: seq<Statement>, k: nat, r: nat, t: nat): seq<Op>
    requires k <= |sts|
    decreases |sts| - k
  {
    if k == |sts| then []
    else OpsOf(sts[k], r, t) + LowerAll(sts, k + 1, r + RefsUsed(sts[k]), t + TmpsUsed(sts[k]))
  }

  // ---------------------------------------------------------------- refinement

  predicate Named(v: Var, t: nat) {
    v.Local? || (v.Tmp? && v.id < t)
  }

  /** Storage holds the arrays and zero everywhere else; old variables agree. */
  ghost predicate Represents(s: State, ab: Abstract, r: nat, t: nat) {
    && (forall l :: Read(s.store, l) == At(ab.arrays, l))
    && (forall i :: i in ab.refs ==> i < r && i in s.refs && s.refs[i] == ab.refs[i])
    && (forall v :: v in ab.env ==> Named(v, t) && v in s.env && s.env[v] == ab.env[v])
  }

  ghost predicate Bounded(ab: Abstract) {
    forall a :: |Content(ab.arrays, a)| < WORD_SIZE
  }

  lemma StaysBounded(ab: Abstract, a: Arr, c: seq<Value>, after: Abstract)
    requires Bounded(ab) && |c| < WORD_SIZE && after.arrays == ab.arrays[a := c]
    ensures Bounded(after)
  {
    forall b ensures |Content(after.arrays, b)| < WORD_SIZE {
      assert |Content(ab.arrays, b)| < WORD_SIZE;
    }
  }

  /** The variable is a reference to the length of `a`. */
  predicate NamesLength(ab: Abstract, a: Arr, v: Var) {
    v.Ref? && v.id in ab.refs && ab.refs[v.id] == LengthOf(a)
  }

  predicate ReadsOwnLength(ab: Abstract, a: Arr, arg: Argument) {
    match arg
    case Absent => false
    case Operand(v) => NamesLength(ab, a, v)
    case Literal(items) => exists k :: 0 <= k < |items| && NamesLength(ab, a, items[k])
  }

  /** What the lowered code reads: the argument after the length was increased. */
  function Late(ab: Abstract, a: Arr, v: Var): Option<Value> {
    if NamesLength(ab, a, v) then Some(Word(|Content(ab.arrays, a)| + 1)) else Lookup(ab, v)
  }

  function LatePushed(ab: Abstract, a: Arr, arg: Argument): Option<Value> {
    match arg
    case Absent => Some(a.zero)
    case Operand(v) => Late(ab, a, v)
    case Literal(items) =>
      if forall k :: 0 <= k < |items| ==> Late(ab, a, items[k]).Some?
      then Some(Items(seq(|items|, k requires 0 <= k < |items| && Late(ab, a, items[k]).Some? =>
                                     Late(ab, a, items[k]).value)))
      else None
  }

  lemma LateIsDefined(ab: Abstract, a: Arr, arg: Argument)
    ensures LatePushed(ab, a, arg).Some? <==> Pushed(ab, a, arg).Some?
    ensures Pushed(ab, a, arg).Some? ==> (LatePushed(ab, a, arg) == Pushed(ab, a, arg) <==> !ReadsOwnLength(ab, a, arg))
  {
    if arg.Literal? && Pushed(ab, a, arg).Some? {
      var late, early := LatePushed(ab, a, arg).value.items, Pushed(ab, a, arg).value.items;
      if k :| 0 <= k < |arg.items| && NamesLength(ab, a, arg.items[k]) {
        assert late[k] != early[k];
      }
      if !ReadsOwnLength(ab, a, arg) {
        assert forall k :: 0 <= k < |arg.items| ==> late[k] == early[k];
        assert late == early;
      }
    }
  }

  /** The state when a push has grown the length and taken the element reference. */
  function Opened(s: State, a: Arr, len: nat, r: nat, t: nat): State {
    State(s.store[LengthOf(a) := Word(len + 1)],
          s.refs[r := LengthOf(a)][r + 1 := Element(a, len)],
          s.env[Tmp(t) := Word(len)][Tmp(t + 1) := Word(len + 1)])
  }

  lemma Cons(checked: bool, s: State, op: Op, ops: seq<Op>)
    ensures var o := Exec(checked, s, op);
            ExecAll(checked, s, [op] + ops) == if o.Ok? then ExecAll(checked, o.s, ops) else o
  {
    assert ([op] + ops)[1..] == ops;
  }

  /** The first five operations of a push: open a slot, or revert at the largest length. */
  lemma PushOpens(checked: bool, s: State, a: Arr, len: nat, r: nat, t: nat, rest: seq<Op>)
    requires Read(s.store, LengthOf(a)) == Word(len) && len < WORD_SIZE
    ensures ExecAll(checked, s, ExpandOps(a, r, t) + ([Index(r + 1, a, Tmp(t))] + rest))
         == if len + 1 < WORD_SIZE then ExecAll(checked, Opened(s, a, len, r, t), rest)
            else Revert(if checked then Arithmetic else OutOfBounds)
  {
    var s1 := s.(refs := s.refs[r := LengthOf(a)]);
    var s2 := s1.(env := s1.env[Tmp(t) := Word(len)]);
    var o1, o2 := Length(r, a), Assign(Tmp(t), Ref(r));
    var o3, o4 := Binary(Tmp(t + 1), Tmp(t), Const(1), Addition), Assign(Ref(r), Tmp(t + 1));
    var o5 := Index(r + 1, a, Tmp(t));
    assert ExpandOps(a, r, t) + ([o5] + rest) == [o1] + ([o2] + ([o3] + ([o4] + ([o5] + rest))));
    Cons(checked, s, o1, [o2] + ([o3] + ([o4] + ([o5] + rest))));
    Cons(checked, s1, o2, [o3] + ([o4] + ([o5] + rest)));
    Cons(checked, s2, o3, [o4] + ([o5] + rest));
    var sum := Arith(checked, Addition, len, 1);
    if sum.Some? {
      var s3 := s2.(env := s2.env[Tmp(t + 1) := Word(sum.value)]);
      Cons(checked, s3, o4, [o5] + rest);
      var s4 := s3.(store := s3.store[LengthOf(a) := Word(sum.value)]);
      Cons(checked, s4, o5, rest);
    }
  }

  lemma OpenedReadsLate(s: State, ab: Abstract, a: Arr, r: nat, t: nat, v: Var)
    requires Represents(s, ab, r, t) && Lookup(ab, v).Some?
    ensures ReadVar(Opened(s, a, |Content(ab.arrays, a)|, r, t), v) == Late(ab, a, v)
  {
    if v.Ref? {
      assert Read(s.store, ab.refs[v.id]) == At(ab.arrays, ab.refs[v.id]);
    }
  }

  /** Storing a value in the opened slot yields the longer array. */
  lemma StoredRepresents(s: State, ab: Abstract, a: Arr, r: nat, t: nat, x: Value, env: map<Var, Value>, u: nat)
    requires Represents(s, ab, r, t) && u >= t
    requires forall v :: v in ab.env ==> v in env && env[v] == ab.env[v]
    ensures var len := |Content(ab.arrays, a)|;
            var o := Opened(s, a, len, r, t);
            Represents(State(o.store[Element(a, len) := x], o.refs, env), Appended(ab, a, x), r + 2, u)
  {
    var len := |Content(ab.arrays, a)|;
    var o := Opened(s, a, len, r, t);
    var store, arrays := o.store[Element(a, len) := x], Appended(ab, a, x).arrays;
    forall l ensures Read(store, l) == At(arrays, l) {
      assert Read(s.store, l) == At(ab.arrays, l);
    }
  }

  /** Without an argument the slot is read as it is, and it is zero. */
  lemma UnstoredRepresents(s: State, ab: Abstract, a: Arr, lvalue: Var, r: nat, t: nat)
    requires Represents(s, ab, r, t) && Named(lvalue, t)
    ensures var len := |Content(ab.arrays, a)|;
            var o := Opened(s, a, len, r, t);
            && ReadVar(o, Ref(r + 1)) == Some(a.zero)
            && Represents(o.(env := o.env[lvalue := a.zero]), PushResult(ab, a, Absent, lvalue, a.zero), r + 2, t + 2)
  {
    var len := |Content(ab.arrays, a)|;
    var o := Opened(s, a, len, r, t);
    assert Read(s.store, Element(a, len)) == At(ab.arrays, Element(a, len)) == a.zero;
    ZeroAppended(s, ab, a, len, r, t);
  }

  /** A grown length alone makes the array longer by a zero. */
  lemma ZeroAppended(s: State, ab: Abstract, a: Arr, len: nat, r: nat, t: nat)
    requires Represents(s, ab, r, t) && len == |Content(ab.arrays, a)|
    ensures forall l :: Read(Opened(s, a, len, r, t).store, l) == At(Appended(ab, a, a.zero).arrays, l)
  {
    forall l ensures Read(Opened(s, a, len, r, t).store, l) == At(Appended(ab, a, a.zero).arrays, l) {
      assert Read(s.store, l) == At(ab.arrays, l);
    }
  }

  ghost predicate RunsTo(o: Outcome, ab: Abstract, r: nat, t: nat) {
    o.Ok? && Represents(o.s, ab, r, t)
  }

  lemma SetOperand(checked: bool, s: State, ab: Abstract, a: Arr, v: Var, r: nat, t: nat)
    requires Represents(s, ab, r, t) && Lookup(ab, v).Some?
    ensures RunsTo(ExecAll(checked, Opened(s, a, |Content(ab.arrays, a)|, r, t), [Assign(Ref(r + 1), v)]),
                   Appended(ab, a, Late(ab, a, v).value), r + 2, t + 2)
  {
    var o := Opened(s, a, |Content(ab.arrays, a)|, r, t);
    OpenedReadsLate(s, ab, a, r, t, v);
    StoredRepresents(s, ab, a, r, t, Late(ab, a, v).value, o.env, t + 2);
    Cons(checked, o, Assign(Ref(r + 1), v), []);
  }

  lemma SetLiteral(checked: bool, s: State, ab: Abstract, a: Arr, items: seq<Var>, r: nat, t: nat)
    requires Represents(s, ab, r, t) && Pushed(ab, a, Literal(items)).Some?
    ensures RunsTo(ExecAll(checked, Opened(s, a, |Content(ab.arrays, a)|, r, t),
                           [InitArray(Tmp(t + 2), items), Assign(Ref(r + 1), Tmp(t + 2))]),
                   Appended(ab, a, LatePushed(ab, a, Literal(items)).value), r + 2, t + 3)
  {
    var o := Opened(s, a, |Content(ab.arrays, a)|, r, t);
    forall k | 0 <= k < |items| ensures ReadVar(o, items[k]) == Late(ab, a, items[k]) && Late(ab, a, items[k]).Some? {
      OpenedReadsLate(s, ab, a, r, t, items[k]);
    }
    var x := LatePushed(ab, a, Literal(items)).value;
    assert ReadAll(o, items).value == x.items;
    var o1 := o.(env := o.env[Tmp(t + 2) := x]);
    StoredRepresents(s, ab, a, r, t, x, o1.env, t + 3);
    Cons(checked, o, InitArray(Tmp(t + 2), items), [Assign(Ref(r + 1), Tmp(t + 2))]);
    Cons(checked, o1, Assign(Ref(r + 1), Tmp(t + 2)), []);
  }

  /**
   * One lowered push, on every state and for every argument. It reverts just
   * at the largest length; otherwise the array is longer by the argument as
   * read after the length was increased, and nothing else has changed.
   */
  lemma PushRuns(checked: bool, s: State, ab: Abstract, a: Arr, arg: Argument, lvalue: Var, r: nat, t: nat)
    requires Represents(s, ab, r, t) && Bounded(ab) && Named(lvalue, t) && Pushed(ab, a, arg).Some?
    ensures var o := ExecAll(checked, s, PushOps(a, arg, lvalue, r, t));
            if |Content(ab.arrays, a)| + 1 < WORD_SIZE
            then RunsTo(o, PushResult(ab, a, arg, lvalue, LatePushed(ab, a, arg).value), r + 2,
                        t + TmpsUsed(Push(a, arg, lvalue)))
            else o == Revert(if checked then Arithmetic else OutOfBounds)
  {
    var len := |Content(ab.arrays, a)|;
    assert Read(s.store, LengthOf(a)) == At(ab.arrays, LengthOf(a));
    var rest := SetOps(a, arg, lvalue, Tmp(t), r + 1, t + 2)[1..];
    assert SetOps(a, arg, lvalue, Tmp(t), r + 1, t + 2) == [Index(r + 1, a, Tmp(t))] + rest;
    assert len < WORD_SIZE;
    PushOpens(checked, s, a, len, r, t, rest);
    if len + 1 < WORD_SIZE { OpenedPushRuns(checked, s, ab, a, arg, lvalue, r, t); }
  }

  /** What follows once a slot is open. */
  lemma OpenedPushRuns(checked: bool, s: State, ab: Abstract, a: Arr, arg: Argument, lvalue: Var, r: nat, t: nat)
    requires Represents(s, ab, r, t) && Named(lvalue, t) && Pushed(ab, a, arg).Some?
    ensures var rest := SetOps(a, arg, lvalue, Tmp(t), r + 1, t + 2)[1..];
            RunsTo(ExecAll(checked, Opened(s, a, |Content(ab.arrays, a)|, r, t), rest),
                   PushResult(ab, a, arg, lvalue, LatePushed(ab, a, arg).value), r + 2,
                   t + TmpsUsed(Push(a, arg, lvalue)))
  {
    LateIsDefined(ab, a, arg);
    match arg
    case Absent =>
      UnstoredRepresents(s, ab, a, lvalue, r, t);
      Cons(checked, Opened(s, a, |Content(ab.arrays, a)|, r, t), Assign(lvalue, Ref(r + 1)), []);
    case Operand(v) =>
      hide Represents, Opened;
      SetOperand(checked, s, ab, a, v, r, t);
    case Literal(items) =>
      hide Represents, Opened;
      SetLiteral(checked, s, ab, a, items, r, t);
  }

  /**
   * The lowered push stores the value its argument had before the call exactly
   * when the argument does not read the length of the array it is pushed on:
   * `a.push(a.length)` stores one more than the length it was called with.
   */
  lemma PushStoresArgumentIff(checked: bool, s: State, ab: Abstract, a: Arr, arg: Argument, lvalue: Var, r: nat, t: nat)
    requires Represents(s, ab, r, t) && Bounded(ab) && Named(lvalue, t) && Pushed(ab, a, arg).Some?
    requires |Content(ab.arrays, a)| + 1 < WORD_SIZE
    ensures var o := ExecAll(checked, s, PushOps(a, arg, lvalue, r, t));
            && o.Ok?
            && (Some(Read(o.s.store, Element(a, |Content(ab.arrays, a)|))) == Pushed(ab, a, arg)
                <==> !ReadsOwnLength(ab, a, arg))
  {
    PushRuns(checked, s, ab, a, arg, lvalue, r, t);
    LateIsDefined(ab, a, arg);
    var len := |Content(ab.arrays, a)|;
    var o := ExecAll(checked, s, PushOps(a, arg, lvalue, r, t));
    var after := PushResult(ab, a, arg, lvalue, LatePushed(ab, a, arg).value);
    assert Read(o.s.store, Element(a, len)) == At(after.arrays, Element(a, len));
  }

  /**
   * One lowered pop. On an empty array it reverts, in a checked scope by the
   * subtraction and otherwise by the bounds test of the wrapped index.
   */
  lemma PopRuns(checked: bool, s: State, ab: Abstract, a: Arr, r: nat, t: nat)
    requires Represents(s, ab, r, t) && Bounded(ab)
    ensures var o := ExecAll(checked, s, PopOps(a, r, t));
            var c := Content(ab.arrays, a);
            if c != [] then RunsTo(o, ab.(arrays := ab.arrays[a := c[..|c| - 1]]), r + 3, t + 1)
            else o == Revert(if checked then Arithmetic else OutOfBounds)
  {
    var c := Content(ab.arrays, a);
    assert Read(s.store, LengthOf(a)) == At(ab.arrays, LengthOf(a)) == Word(|c|);
    var s1 := s.(refs := s.refs[r := LengthOf(a)]);
    var tail := [Delete(r + 1), Length(r + 2, a), Assign(Ref(r + 2), Tmp(t))];
    var o2, o3 := Binary(Tmp(t), Ref(r), Const(1), Subtraction), Index(r + 1, a, Tmp(t));
    assert PopOps(a, r, t) == [Length(r, a)] + ([o2] + ([o3] + tail));
    Cons(checked, s, Length(r, a), [o2] + ([o3] + tail));
    Cons(checked, s1, o2, [o3] + tail);
    var rest := Arith(checked, Subtraction, |c|, 1);
    if rest.Some? {
      var s2 := s1.(env := s1.env[Tmp(t) := Word(rest.value)]);
      Cons(checked, s2, o3, tail);
      if c != [] {
        Shrinks(checked, s, ab, a, r, t, s2.(refs := s2.refs[r + 1 := Element(a, |c| - 1)]));
      }
    }
  }

  /** The last three operations of a pop: clear the element, then shorten. */
  lemma Shrinks(checked: bool, s: State, ab: Abstract, a: Arr, r: nat, t: nat, s3: State)
    requires Represents(s, ab, r, t) && Content(ab.arrays, a) != []
    requires var n := |Content(ab.arrays, a)| - 1;
             s3 == State(s.store, s.refs[r := LengthOf(a)][r + 1 := Element(a, n)], s.env[Tmp(t) := Word(n)])
    ensures var c := Content(ab.arrays, a);
            RunsTo(ExecAll(checked, s3, [Delete(r + 1), Length(r + 2, a), Assign(Ref(r + 2), Tmp(t))]),
                   ab.(arrays := ab.arrays[a := c[..|c| - 1]]), r + 3, t + 1)
  {
    var c := Content(ab.arrays, a);
    var n := |c| - 1;
    var s4 := s3.(store := s3.store[Element(a, n) := a.zero]);
    var s5 := s4.(refs := s4.refs[r + 2 := LengthOf(a)]);
    var s6 := s5.(store := s5.store[LengthOf(a) := Word(n)]);
    Cons(checked, s3, Delete(r + 1), [Length(r + 2, a), Assign(Ref(r + 2), Tmp(t))]);
    Cons(checked, s4, Length(r + 2, a), [Assign(Ref(r + 2), Tmp(t))]);
    Cons(checked, s5, Assign(Ref(r + 2), Tmp(t)), []);
    ShorterRepresents(s, ab, a, s6, r, t);
  }

  /** Storage with the last element cleared and the length reduced holds the shorter array. */
  lemma ShorterRepresents(s: State, ab: Abstract, a: Arr, after: State, r: nat, t: nat)
    requires Represents(s, ab, r, t) && Content(ab.arrays, a) != []
    requires var n := |Content(ab.arrays, a)| - 1;
             && after.store == s.store[Element(a, n) := a.zero][LengthOf(a) := Word(n)]
             && after.refs == s.refs[r := LengthOf(a)][r + 1 := Element(a, n)][r + 2 := LengthOf(a)]
             && after.env == s.env[Tmp(t) := Word(n)]
    ensures var c := Content(ab.arrays, a);
            Represents(after, ab.(arrays := ab.arrays[a := c[..|c| - 1]]), r + 3, t + 1)
  {
    var c := Content(ab.arrays, a);
    var arrays := ab.arrays[a := c[..|c| - 1]];
    forall l ensures Read(after.store, l) == At(arrays, l) {
      assert Read(s.store, l) == At(ab.arrays, l);
    }
  }

  // ---------------------------------------------------------------- whole runs

  /** No push in the list reads the length of its own array, and results go to old variables. */
  ghost predicate Clean(ab: Abstract, sts: seq<Statement>, k: nat, t: nat) {
    forall j :: k <= j < |sts| && sts[j].Push? ==> !ReadsOwnLength(ab, sts[j].a, sts[j].arg) && Named(sts[j].lvalue, t)
  }

  /** Storage holds the arrays, their lengths, and zero past their ends. */
  ghost predicate Holds(s: State, arrays: map<Arr, seq<Value>>) {
    forall l :: Read(s.store, l) == At(arrays, l)
  }

  ghost predicate Matches(checked: bool, o: Outcome, p: Result) {
    match p
    case Done(after) => o.Ok? && Holds(o.s, after.arrays)
    case Reverts => o == Revert(if checked then Arithmetic else OutOfBounds)
    case Undefined => false
  }

  /**
   * Every sequence of pushes and pops on any number of arrays: the lowered
   * operations revert exactly when the arrays do, and otherwise leave storage
   * that holds exactly the resulting arrays and zero past their ends. Since an
   * index out of bounds reverts, every index of a finished run was in bounds.
   */
  lemma {:induction false} RunsRefine(checked: bool, s: State, ab: Abstract, sts: seq<Statement>, k: nat,
                                      r: nat, t: nat)
    requires k <= |sts| && Represents(s, ab, r, t) && Bounded(ab) && Clean(ab, sts, k, t)
    requires PerformAll(ab, sts, k) != Undefined
    ensures Matches(checked, ExecAll(checked, s, LowerAll(sts, k, r, t)), PerformAll(ab, sts, k))
    decreases |sts| - k
  {
    hide *;
    if k == |sts| {
      NothingLeft(checked, s, ab, sts, r, t);
    } else {
      Unroll(ab, sts, k, r, t);
      var st := sts[k];
      var p := Perform(ab, st);
      var r1, t1 := r + RefsUsed(st), t + TmpsUsed(st);
      CleanHere(ab, sts, k, t);
      StepRefines(checked, s, ab, st, r, t);
      SteppedMeans(checked, ExecAll(checked, s, OpsOf(st, r, t)), p, ab, st, r, t);
      ExecAppend(checked, s, OpsOf(st, r, t), LowerAll(sts, k + 1, r1, t1));
      if p.Done? {
        CleanLater(ab, p.ab, sts, k, t, t1);
        RunsRefine(checked, ExecAll(checked, s, OpsOf(st, r, t)).s, p.ab, sts, k + 1, r1, t1);
      }
    }
  }

  lemma SteppedMeans(checked: bool, o: Outcome, p: Result, ab: Abstract, st: Statement, r: nat, t: nat)
    requires Stepped(checked, o, p, ab, st, r, t)
    ensures p.Done? <==> o.Ok?
    ensures if p.Done? then
              && Represents(o.s, p.ab, r + RefsUsed(st), t + TmpsUsed(st))
              && Bounded(p.ab) && p.ab.refs == ab.refs
            else Matches(checked, o, p)
  {
  }

  lemma NothingLeft(checked: bool, s: State, ab: Abstract, sts: seq<Statement>, r: nat, t: nat)
    requires Represents(s, ab, r, t)
    ensures Matches(checked, ExecAll(checked, s, LowerAll(sts, |sts|, r, t)), PerformAll(ab, sts, |sts|))
  {
    assert Holds(s, ab.arrays);
  }

  lemma Unroll(ab: Abstract, sts: seq<Statement>, k: nat, r: nat, t: nat)
    requires k < |sts|
    ensures PerformAll(ab, sts, k) == var p := Perform(ab, sts[k]); if p.Done? then PerformAll(p.ab, sts, k + 1) else p
    ensures LowerAll(sts, k, r, t)
         == OpsOf(sts[k], r, t) + LowerAll(sts, k + 1, r + RefsUsed(sts[k]), t + TmpsUsed(sts[k]))
  {
  }

  /** The outcome o of a lowered statement and the result p of the statement. */
  ghost predicate Stepped(checked: bool, o: Outcome, p: Result, ab: Abstract, st: Statement, r: nat, t: nat) {
    if p.Done? then
      && o.Ok? && Represents(o.s, p.ab, r + RefsUsed(st), t + TmpsUsed(st))
      && Bounded(p.ab) && p.ab.refs == ab.refs
    else Matches(checked, o, p)
  }

  lemma StepRefines(checked: bool, s: State, ab: Abstract, st: Statement, r: nat, t: nat)
    requires Represents(s, ab, r, t) && Bounded(ab) && Perform(ab, st) != Undefined
    requires st.Push? ==> !ReadsOwnLength(ab, st.a, st.arg) && Named(st.lvalue, t)
    ensures Stepped(checked, ExecAll(checked, s, OpsOf(st, r, t)), Perform(ab, st), ab, st, r, t)
  {
    match st
    case Push(_, _, _) => PushRefines(checked, s, ab, st, r, t);
    case Pop(_) => PopRefines(checked, s, ab, st, r, t);
  }

  lemma PushRefines(checked: bool, s: State, ab: Abstract, st: Statement, r: nat, t: nat)
    requires Represents(s, ab, r, t) && Bounded(ab) && Perform(ab, st) != Undefined
    requires st.Push? && !ReadsOwnLength(ab, st.a, st.arg) && Named(st.lvalue, t)
    ensures Stepped(checked, ExecAll(checked, s, OpsOf(st, r, t)), Perform(ab, st), ab, st, r, t)
  {
    PushRuns(checked, s, ab, st.a, st.arg, st.lvalue, r, t);
    LateIsDefined(ab, st.a, st.arg);
    hide Represents, ExecAll, LatePushed, Pushed, PushOps;
    var p := Perform(ab, st);
    if p.Done? { StaysBounded(ab, st.a, Content(p.ab.arrays, st.a), p.ab); }
  }

  lemma PopRefines(checked: bool, s: State, ab: Abstract, st: Statement, r: nat, t: nat)
    requires Represents(s, ab, r, t) && Bounded(ab) && st.Pop?
    ensures Stepped(checked, ExecAll(checked, s, OpsOf(st, r, t)), Perform(ab, st), ab, st, r, t)
  {
    PopRuns(checked, s, ab, st.a, r, t);
    hide Represents, ExecAll, PopOps;
    var p := Perform(ab, st);
    if p.Done? { StaysBounded(ab, st.a, Content(p.ab.arrays, st.a), p.ab); }
  }

  lemma CleanHere(ab: Abstract, sts: seq<Statement>, k: nat, t: nat)
    requires k < |sts| && Clean(ab, sts, k, t)
    ensures sts[k].Push? ==> !ReadsOwnLength(ab, sts[k].a, sts[k].arg) && Named(sts[k].lvalue, t)
  {
  }

  lemma CleanLater(ab: Abstract, after: Abstract, sts: seq<Statement>, k: nat, t: nat, u: nat)
    requires Clean(ab, sts, k, t) && after.refs == ab.refs && t <= u
    ensures Clean(after, sts, k + 1, u)
  {
    forall j | k + 1 <= j < |sts| && sts[j].Push?
      ensures !ReadsOwnLength(after, sts[j].a, sts[j].arg) && Named(sts[j].lvalue, u)
    {
      assert !ReadsOwnLength(ab, sts[j].a, sts[j].arg);
    }
  }

  /** A push followed by a pop of the same array leaves every storage location as it was. */
  lemma PopUndoesPush(checked: bool, s: State, ab: Abstract, a: Arr, arg: Argument, lvalue: Var, r: nat, t: nat)
    requires Represents(s, ab, r, t) && Bounded(ab) && Named(lvalue, t) && Pushed(ab, a, arg).Some?
    requires |Content(ab.arrays, a)| + 1 < WORD_SIZE
    ensures var o := ExecAll(checked, s, LowerAll([Push(a, arg, lvalue), Pop(a)], 0, r, t));
            o.Ok? && forall l :: Read(o.s.store, l) == Read(s.store, l)
  {
    hide Represents, Exec, ExecAll, Read, At, Bounded, LatePushed, Pushed, PushOps, PopOps, LowerAll, Named, TmpsUsed;
    PushRuns(checked, s, ab, a, arg, lvalue, r, t);
    LateIsDefined(ab, a, arg);
    var r1, t1 := r + 2, t + TmpsUsed(Push(a, arg, lvalue));
    var grown := PushResult(ab, a, arg, lvalue, LatePushed(ab, a, arg).value);
    var s1 := ExecAll(checked, s, PushOps(a, arg, lvalue, r, t)).s;
    assert Content(grown.arrays, a) == Content(ab.arrays, a) + [LatePushed(ab, a, arg).value];
    StaysBounded(ab, a, Content(grown.arrays, a), grown);
    PopRuns(checked, s1, grown, a, r1, t1);
    LowerTwo(a, arg, lvalue, r, t);
    ExecAppend(checked, s, PushOps(a, arg, lvalue, r, t), PopOps(a, r1, t1));
    var c := Content(grown.arrays, a);
    assert c[..|c| - 1] == Content(ab.arrays, a);
    SameReads(s, ab, ExecAll(checked, s1, PopOps(a, r1, t1)).s, grown.(arrays := grown.arrays[a := c[..|c| - 1]]),
              a, r, t, r1 + 3, t1 + 1);
  }

  lemma LowerTwo(a: Arr, arg: Argument, lvalue: Var, r: nat, t: nat)
    ensures LowerAll([Push(a, arg, lvalue), Pop(a)], 0, r, t)
         == PushOps(a, arg, lvalue, r, t) + PopOps(a, r + 2, t + TmpsUsed(Push(a, arg, lvalue)))
  {
    var sts := [Push(a, arg, lvalue), Pop(a)];
    var r1, t1 := r + 2, t + TmpsUsed(sts[0]);
    assert LowerAll(sts, 2, r1 + 3, t1 + 1) == [];
    assert LowerAll(sts, 1, r1, t1) == PopOps(a, r1, t1) + [];
  }

  lemma SameReads(s: State, ab: Abstract, s2: State, ab2: Abstract, a: Arr, r: nat, t: nat, r2: nat, t2: nat)
    requires Represents(s, ab, r, t) && Represents(s2, ab2, r2, t2)
    requires a in ab2.arrays && ab2.arrays == ab.arrays[a := Content(ab.arrays, a)]
    ensures forall l :: Read(s2.store, l) == Read(s.store, l)
  {
    forall l ensures Read(s2.store, l) == Read(s.store, l) {
      assert Read(s2.store, l) == At(ab2.arrays, l);
      assert Read(s.store, l) == At(ab.arrays, l);
    }
  }
}
