/**
 * Linear-sweep disassembly of EVM code and the encoder that undoes it. The
 * references are the code bytes themselves, the list of well-formed
 * instructions, and the valid jump destinations of the Yellow Paper,
 * section 9.4.3.
 */
module Disassembly {

  import opened Collections
  import opened BigEndian

  const JUMPDEST: Byte := 0x5b

  datatype Instruction = Instruction(
    opcode: Byte, operandSize: nat, operand: Option<seq<Byte>>, interpretation: Option<nat>, offset: nat)
  {
    function Size(): nat { operandSize + 1 }
    predicate HasOperand() { operandSize > 0 }
    predicate IsPush() { opcode / 16 == 6 || opcode / 16 == 7 }
    function OffsetEnd(): int { offset + Size() - 1 }
  }

  datatype Outcome = Listing(instructions: seq<Instruction>) | BytecodeEmpty

  /**
   * Operand sizes of the opcode table. Only PUSH1 to PUSH32 have an operand,
   * and an opcode the table does not list is read as INVALID without one.
   */
  function OperandSize(opcode: Byte): nat {
    if 0x60 <= opcode <= 0x7f then opcode - 0x5f else 0
  }

  function Least(a: int, b: int): int {
    if a < b then a else b
  }

  /** What is read at `pos`: the operand stops where the code does. */
  function DecodeAt(code: seq<Byte>, pos: nat): (i: Instruction)
    requires pos < |code|
  {
    var size := OperandSize(code[pos]);
    var operand := code[pos + 1..Least(pos + 1 + size, |code|)];
    if size == 0 then Instruction(code[pos], 0, None, None, pos)
    else Instruction(code[pos], size, Some(operand), Some(FromBytes(operand, |operand|)), pos)
  }

  function Next(code: seq<Byte>, pos: nat): nat
    requires pos < |code|
  {
    pos + 1 + OperandSize(code[pos])
  }

  function Sweep(code: seq<Byte>, pos: nat): (r: seq<Instruction>)
    decreases |code| - pos
  {
    if pos >= |code| then [] else [DecodeAt(code, pos)] + Sweep(code, Next(code, pos))
  }

  lemma DecodeFromSlice(code: seq<Byte>, pos: nat)
    requires pos < |code|
    ensures DecodeAt(code[pos..], 0).(offset := pos) == DecodeAt(code, pos)
  {
    var size := OperandSize(code[pos]);
    assert code[pos..][1..Least(1 + size, |code| - pos)] == code[pos + 1..Least(pos + 1 + size, |code|)];
  }

  lemma SweepStep(code: seq<Byte>, pos: nat, done: seq<Instruction>)
    requires pos < |code|
    ensures done + Sweep(code, pos) == (done + [DecodeAt(code, pos)]) + Sweep(code, Next(code, pos))
    ensures DecodeAt(code, pos).Size() == Next(code, pos) - pos
  {
  }

  function EncodeOne(i: Instruction): seq<Byte> {
    [i.opcode] + if i.operand.Some? then i.operand.value else []
  }

  function EncodeAll(l: seq<Instruction>): seq<Byte> {
    if l == [] then [] else EncodeOne(l[0]) + EncodeAll(l[1..])
  }

  // ---------------------------------------------------------------- the code

  class Disassembler {
    var bytecode: seq<Byte>
    var instructions: seq<Instruction>
    var reverse: map<nat, Instruction>

    constructor (code: seq<Byte>)
      ensures bytecode == code && instructions == [] && reverse == map[]
    {
      bytecode, instructions, reverse := code, [], map[];
    }

    /** Decodes the first instruction of `rest`, which starts at `offset`. */
    method DisassembleOpcode(rest: seq<Byte>, offset: nat) returns (i: Instruction)
      requires rest != []
      ensures i == DecodeAt(rest, 0).(offset := offset)
    {
      var opcode := rest[0];
      var size := OperandSize(opcode);
      i := Instruction(opcode, size, None, None, offset);
      if i.HasOperand() {
        var operand := rest[1..Least(1 + size, |rest|)];
        i := i.(operand := Some(operand));
        if i.IsPush() {
          i := i.(interpretation := Some(FromBytes(operand, |operand|)));
        }
      }
    }

    /** An empty argument falls back on the code given before. */
    method Disassemble(code: seq<Byte>, start: nat) returns (r: Outcome)
      modifies this
      ensures bytecode == if code != [] then code else old(bytecode)
      ensures r == if bytecode == [] then BytecodeEmpty else Listing(Sweep(bytecode, start))
      ensures instructions == Sweep(bytecode, start)
      ensures forall k: nat :: k in reverse <==> k < |instructions|
      ensures forall k: nat :: k in reverse ==> reverse[k] == instructions[k]
    {
      hide DecodeAt, Next;
      instructions, reverse := [], map[];
      if code != [] { bytecode := code; }
      if bytecode == [] {
        return BytecodeEmpty;
      }
      var offset := start;
      while offset < |bytecode|
        invariant bytecode != [] && bytecode == if code != [] then code else old(bytecode)
        invariant instructions + Sweep(bytecode, offset) == Sweep(bytecode, start)
        decreases |bytecode| - offset
      {
        var i := DisassembleOpcode(bytecode[offset..], offset);
        DecodeFromSlice(bytecode, offset);
        SweepStep(bytecode, offset, instructions);
        offset := offset + i.Size();
        instructions := instructions + [i];
      }
      reverse := map k: nat | k < |instructions| :: instructions[k];
      return Listing(instructions);
    }
  }

  /** `Instruction.bytes`, which appends the operand byte by byte. */
  method Bytes(i: Instruction) returns (bytes: seq<Byte>)
    ensures bytes == EncodeOne(i)
  {
    bytes := [i.opcode];
    if i.operand.Some? {
      var k := 0;
      while k < |i.operand.value|
        invariant 0 <= k <= |i.operand.value|
        invariant bytes == [i.opcode] + i.operand.value[..k]
      {
        bytes := bytes + [i.operand.value[k]];
        k := k + 1;
      }
      assert i.operand.value[..k] == i.operand.value;
    }
  }

  // ---------------------------------------------------------------- tiling and encoding

  lemma EncodeOneAt(code: seq<Byte>, pos: nat)
    requires pos < |code|
    ensures EncodeOne(DecodeAt(code, pos)) == code[pos..Least(Next(code, pos), |code|)]
  {
    var end := Least(Next(code, pos), |code|);
    assert [code[pos]] + code[pos + 1..end] == code[pos..end];
    if OperandSize(code[pos]) == 0 { assert [code[pos]] + [] == code[pos..end]; }
  }

  /** Encoding what was disassembled gives the bytes back, a truncated final PUSH included. */
  lemma {:induction false} EncodeSweep(code: seq<Byte>, pos: nat)
    ensures EncodeAll(Sweep(code, pos)) == if pos <= |code| then code[pos..] else []
    decreases |code| - pos
  {
    hide EncodeOne, DecodeAt;
    if pos < |code| {
      var i, next := DecodeAt(code, pos), Next(code, pos);
      EncodeSweep(code, next);
      EncodeOneAt(code, pos);
      EncodeCons(i, Sweep(code, next));
      Cut(code, pos, next);
    }
  }

  lemma EncodeCons(i: Instruction, l: seq<Instruction>)
    ensures EncodeAll([i] + l) == EncodeOne(i) + EncodeAll(l)
  {
    assert ([i] + l)[1..] == l;
  }

  lemma Cut(code: seq<Byte>, a: nat, b: nat)
    requires a <= b && a <= |code|
    ensures code[a..] == code[a..Least(b, |code|)] + if b <= |code| then code[b..] else []
  {
  }

  /** The size an instruction reports is what it occupies unless the code ends inside it. */
  ghost predicate WellFormed(i: Instruction, offset: nat) {
    && i.offset == offset
    && i.operandSize == OperandSize(i.opcode)
    && (i.operandSize == 0 ==> i.operand == None && i.interpretation == None)
    && (i.operandSize > 0 ==> i.operand.Some? && |i.operand.value| <= i.operandSize
                              && i.interpretation == Some(FromBytes(i.operand.value, |i.operand.value|)))
  }

  ghost predicate Whole(i: Instruction) {
    i.operand.Some? ==> |i.operand.value| == i.operandSize
  }

  /** Instructions laid end to end from `offset`; only the last may be cut short. */
  ghost predicate Tiles(l: seq<Instruction>, offset: nat) {
    l != [] ==>
      && WellFormed(l[0], offset)
      && (|l| > 1 ==> Whole(l[0]))
      && Tiles(l[1..], offset + l[0].Size())
  }

  lemma {:induction false} SweepTiles(code: seq<Byte>, pos: nat)
    ensures Tiles(Sweep(code, pos), pos)
    decreases |code| - pos
  {
    if pos < |code| {
      var l, next := Sweep(code, pos), Next(code, pos);
      SweepTiles(code, next);
      assert l[1..] == Sweep(code, next);
    }
  }

  lemma {:induction false} SweepEncode(before: seq<Byte>, l: seq<Instruction>)
    requires Tiles(l, |before|)
    ensures Sweep(before + EncodeAll(l), |before|) == l
    decreases |l|
  {
    if l != [] {
      var one, rest := EncodeOne(l[0]), EncodeAll(l[1..]);
      assert before + EncodeAll(l) == (before + one) + rest;
      DecodeEncoded(before, l[0], rest);
      hide DecodeAt, EncodeOne;
      if |l| > 1 {
        SweepEncode(before + one, l[1..]);
      } else {
        assert rest == [];
      }
    }
  }

  /** An encoded instruction is decoded again; if it is cut short, nothing follows. */
  lemma DecodeEncoded(before: seq<Byte>, i: Instruction, rest: seq<Byte>)
    requires WellFormed(i, |before|) && (Whole(i) || rest == [])
    ensures var code := before + EncodeOne(i) + rest;
            && |before| < |code| && DecodeAt(code, |before|) == i && Next(code, |before|) == |before| + i.Size()
            && (Whole(i) ==> |EncodeOne(i)| == i.Size()) && |EncodeOne(i)| <= i.Size()
  {
    var one, code := EncodeOne(i), before + EncodeOne(i) + rest;
    assert code[|before|] == i.opcode;
    assert code[|before| + 1..Least(|before| + i.Size(), |code|)] == one[1..];
    if i.operandSize > 0 { assert one[1..] == i.operand.value; }
  }

  /**
   * The listings the sweep can produce are exactly the tilings, and each is
   * the listing of its own encoding. Since `EncodeSweep` recovers the code,
   * disassembly is a bijection between byte strings and tilings.
   */
  lemma ListingIffTiles(l: seq<Instruction>)
    ensures Sweep(EncodeAll(l), 0) == l <==> Tiles(l, 0)
    ensures (exists code :: Sweep(code, 0) == l) <==> Tiles(l, 0)
  {
    if Tiles(l, 0) {
      SweepEncode([], l);
      assert [] + EncodeAll(l) == EncodeAll(l);
    }
    forall code | Sweep(code, 0) == l ensures Tiles(l, 0) {
      SweepTiles(code, 0);
    }
  }

  /**
   * Where each instruction lies: consecutive offsets differ by the reported
   * size, every offset holds its own opcode, and the last instruction reaches
   * the end of the code or past it.
   */
  lemma {:induction false} OffsetsAreContiguous(code: seq<Byte>, pos: nat, k: nat)
    requires k < |Sweep(code, pos)|
    ensures var l := Sweep(code, pos);
            && pos <= l[k].offset < |code| && l[k].opcode == code[l[k].offset]
            && (k == 0 ==> l[k].offset == pos)
            && (k + 1 < |l| ==> l[k + 1].offset == l[k].offset + l[k].Size() == l[k].OffsetEnd() + 1)
            && (k + 1 == |l| ==> l[k].OffsetEnd() >= |code| - 1)
    decreases |code| - pos
  {
    if k > 0 { OffsetsAreContiguous(code, Next(code, pos), k - 1); }
  }

  /** Every byte from the start on belongs to exactly one instruction. */
  lemma {:induction false} EveryByteOnce(code: seq<Byte>, pos: nat, b: nat) returns (k: nat)
    requires pos <= b < |code|
    ensures k < |Sweep(code, pos)| && Sweep(code, pos)[k].offset <= b <= Sweep(code, pos)[k].OffsetEnd()
    ensures forall j ::
              0 <= j < |Sweep(code, pos)| && Sweep(code, pos)[j].offset <= b <= Sweep(code, pos)[j].OffsetEnd()
              ==> j == k
    decreases |code| - pos
  {
    var next, l := Next(code, pos), Sweep(code, pos);
    if b < next {
      k := 0;
      forall j | 0 < j < |l| ensures l[j].offset >= next {
        OffsetsAreContiguous(code, next, j - 1);
      }
    } else {
      var m := EveryByteOnce(code, next, b);
      k := m + 1;
      assert forall j :: 0 < j < |l| ==> l[j] == Sweep(code, next)[j - 1];
    }
  }

  // ---------------------------------------------------------------- jump destinations

  /** The Yellow Paper's N: where the next instruction is. */
  function N(i: nat, w: Byte): nat {
    if 0x60 <= w <= 0x7f then i + w - 0x60 + 2 else i + 1
  }

  /** The Yellow Paper's D_J: the valid destinations from position `i` on. */
  function DJ(c: seq<Byte>, i: nat): set<nat>
    decreases |c| - i
  {
    if i >= |c| then {}
    else if c[i] == 0x5b then {i} + DJ(c, N(i, c[i]))
    else DJ(c, N(i, c[i]))
  }

  ghost predicate ListsJumpdestAt(l: seq<Instruction>, p: nat) {
    exists k :: 0 <= k < |l| && l[k].opcode == JUMPDEST && l[k].offset == p
  }

  lemma {:induction false} JumpdestsAreValid(code: seq<Byte>, pos: nat, p: nat)
    ensures ListsJumpdestAt(Sweep(code, pos), p) <==> p in DJ(code, pos)
    decreases |code| - pos
  {
    if pos < |code| {
      var l, rest := Sweep(code, pos), Sweep(code, Next(code, pos));
      JumpdestsAreValid(code, Next(code, pos), p);
      assert l[0].offset == pos && l[0].opcode == code[pos];
      ListsCons(l[0], rest, p);
    }
  }

  lemma ListsCons(i: Instruction, rest: seq<Instruction>, p: nat)
    ensures ListsJumpdestAt([i] + rest, p) <==> (i.opcode == JUMPDEST && i.offset == p) || ListsJumpdestAt(rest, p)
  {
    var l := [i] + rest;
    assert l[0] == i && forall k :: 0 < k < |l| ==> l[k] == rest[k - 1];
    assert forall k :: 0 <= k < |rest| ==> rest[k] == l[k + 1];
  }

  // ---------------------------------------------------------------- start offsets

  ghost predicate Boundary(code: seq<Byte>, start: nat, p: nat) {
    exists k :: 0 <= k < |Sweep(code, start)| && Sweep(code, start)[k].offset == p
  }

  lemma {:induction false} BoundaryStep(code: seq<Byte>, start: nat, p: nat)
    requires start < |code|
    ensures Boundary(code, start, p) <==> p == start || Boundary(code, Next(code, start), p)
  {
    var l, rest := Sweep(code, start), Sweep(code, Next(code, start));
    assert l[0].offset == start;
    assert forall k :: 0 < k < |l| ==> l[k] == rest[k - 1];
    assert forall k :: 0 <= k < |rest| ==> rest[k] == l[k + 1];
  }

  /** Sweeping from the middle gives a tail of the whole listing exactly from a boundary. */
  lemma {:induction false} TailIffBoundary(code: seq<Byte>, start: nat, p: nat)
    requires start <= p < |code|
    ensures Boundary(code, start, p)
       <==> exists k :: 0 <= k <= |Sweep(code, start)| && Sweep(code, start)[k..] == Sweep(code, p)
    decreases |code| - start
  {
    var l, tail := Sweep(code, start), Sweep(code, p);
    forall k | 0 <= k <= |l| && l[k..] == tail ensures Boundary(code, start, p) {
      assert l[k] == tail[0];
    }
    if Boundary(code, start, p) {
      var k := BoundaryGivesTail(code, start, p);
    }
  }

  lemma {:induction false} BoundaryGivesTail(code: seq<Byte>, start: nat, p: nat) returns (k: nat)
    requires start <= p < |code| && Boundary(code, start, p)
    ensures k <= |Sweep(code, start)| && Sweep(code, start)[k..] == Sweep(code, p)
    decreases |code| - start
  {
    if p == start {
      k := 0;
      assert Sweep(code, start)[k..] == Sweep(code, start);
    } else {
      var next := Next(code, start);
      BoundaryStep(code, start, p);
      BoundaryIsAhead(code, next, p);
      var m := BoundaryGivesTail(code, next, p);
      k := m + 1;
      assert Sweep(code, start)[k..] == Sweep(code, next)[m..];
    }
  }

  lemma BoundaryIsAhead(code: seq<Byte>, start: nat, p: nat)
    requires Boundary(code, start, p)
    ensures start <= p
  {
    var k :| 0 <= k < |Sweep(code, start)| && Sweep(code, start)[k].offset == p;
    OffsetsAreContiguous(code, start, k);
  }

  /** No byte before `p`, read as an opcode, has an operand reaching past it. */
  ghost predicate NothingStraddles(code: seq<Byte>, p: nat)
    requires p <= |code|
  {
    forall q: nat :: q < p ==> Next(code, q) <= p
  }

  /** Every sweep, wherever it starts, falls into step at `p` exactly when nothing straddles `p`. */
  lemma SynchronizesIffNothingStraddles(code: seq<Byte>, p: nat)
    requires p < |code|
    ensures (forall start: nat :: start <= p ==> Boundary(code, start, p)) <==> NothingStraddles(code, p)
  {
    if NothingStraddles(code, p) {
      forall start: nat | start <= p ensures Boundary(code, start, p) {
        Synchronizes(code, start, p);
      }
    }
    forall q: nat | q < p && Next(code, q) > p ensures !Boundary(code, q, p) {
      BoundaryStep(code, q, p);
      if Boundary(code, Next(code, q), p) { BoundaryIsAhead(code, Next(code, q), p); }
    }
  }

  lemma {:induction false} Synchronizes(code: seq<Byte>, start: nat, p: nat)
    requires start <= p < |code| && NothingStraddles(code, p)
    ensures Boundary(code, start, p)
    decreases p - start
  {
    BoundaryStep(code, start, p);
    if start < p { Synchronizes(code, Next(code, start), p); }
  }

  // ---------------------------------------------------------------- operands

  /** The value the machine pushes: code past its end reads as zero bytes. */
  function Pushed(code: seq<Byte>, pos: nat): nat
    requires pos < |code|
  {
    var n := OperandSize(code[pos]);
    FromBytes(seq<Byte>(n, k requires 0 <= k < n => if pos + 1 + k < |code| then code[pos + 1 + k] else 0), n)
  }

  lemma {:induction false} TrailingZeros(s: seq<Byte>, m: nat, n: nat)
    requires m <= n <= |s| && forall k :: m <= k < n ==> s[k] == 0
    ensures FromBytes(s, n) == FromBytes(s, m) * Power256(n - m)
  {
    if m < n {
      TrailingZeros(s, m, n - 1);
      Regroup(FromBytes(s, m), Power256(n - m - 1));
      assert Power256(n - m) == 256 * Power256(n - m - 1);
    } else {
      assert Power256(0) == 1;
    }
  }

  /**
   * The recorded interpretation is the value pushed, except that a PUSH cut
   * short by the end of the code records too small a number unless it is zero.
   */
  lemma InterpretationIffPushed(code: seq<Byte>, pos: nat)
    requires pos < |code| && OperandSize(code[pos]) > 0
    ensures var i := DecodeAt(code, pos);
            i.interpretation == Some(Pushed(code, pos)) <==> Whole(i) || i.interpretation == Some(0)
  {
    var i, n := DecodeAt(code, pos), OperandSize(code[pos]);
    var m := |i.operand.value|;
    var padded := seq<Byte>(n, k requires 0 <= k < n => if pos + 1 + k < |code| then code[pos + 1 + k] else 0);
    FromBytesReadsPrefix(padded, i.operand.value, m);
    TrailingZeros(padded, m, n);
    var v := FromBytes(padded, m);
    PowerGrows(n - m);
    if v > 0 && m < n { Scales(v, Power256(n - m)); }
  }

  lemma {:induction false} PowerGrows(n: nat)
    ensures Power256(n) >= 1 && (n > 0 ==> Power256(n) > 1)
  {
    if n > 0 { PowerGrows(n - 1); }
  }

  lemma Regroup(v: nat, p: nat)
    ensures 256 * (v * p) == v * (256 * p)
  {
  }

  lemma Scales(v: nat, p: nat)
    requires v > 0 && p > 1
    ensures v * p > v
  {
    assert v * p == v + v * (p - 1);
  }
}
