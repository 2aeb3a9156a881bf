/**
 * The emulator's byte memory. The source grows it lazily and generously: a
 * request that ends past the buffer appends as many zero bytes as its end
 * position, not as many as are missing. The reference is the Yellow Paper's
 * memory, section 9.1: an unbounded byte array that is zero until written.
 */
module EvmMemory {
  import opened BigEndian
  import opened Collections

  datatype Outcome = Stored | Loaded(word: nat) | Overflow

  datatype Access = Store(p: nat, v: int) | Load(p: nat)

  /** First position after the 32 bytes an access touches. */
  function End(a: Access): nat {
    a.p + 32
  }

  function Zeros(n: nat): (s: seq<Byte>) {
    seq(n, i => 0)
  }

  // ---------------------------------------------------------------- the buffer

  function Extended(s: seq<Byte>, end: nat): (t: seq<Byte>) {
    if |s| < end then s + Zeros(end) else s
  }

  function Overwritten(s: seq<Byte>, p: nat, bs: seq<Byte>): (t: seq<Byte>)
    requires p + |bs| <= |s|
  {
    s[..p] + bs + s[p + |bs|..]
  }

  ghost predicate Fits(v: int) {
    0 <= v < Power256(32)
  }

  ghost function After(s: seq<Byte>, a: Access): (t: seq<Byte>)
    ensures |t| == |Extended(s, End(a))| && End(a) <= |t|
  {
    var e := Extended(s, End(a));
    if a.Store? && Fits(a.v) then Overwritten(e, a.p, ToBytes(a.v, 32)) else e
  }

  ghost function Answer(s: seq<Byte>, a: Access): (o: Outcome) {
    match a
    case Store(_, v) => if Fits(v) then Stored else Overflow
    case Load(p) => Loaded(FromBytes(Extended(s, p + 32)[p..p + 32], 32))
  }

  class Memory {
    var data: seq<Byte>

    constructor (l: nat)
      ensures data == Zeros(l)
    {
      data := Zeros(l);
    }

    method Extend(p: nat)
      modifies this
      ensures data == old(data) + Zeros(p)
    {
      data := data + Zeros(p);
    }

    /** A value that does not fit is refused only after the buffer has grown. */
    method Mstore(p: nat, v: int) returns (o: Outcome)
      modifies this
      ensures data == After(old(data), Store(p, v))
      ensures o == Answer(old(data), Store(p, v))
    {
      if |data| < p + 0x20 {
        Extend(p + 0x20);
      }
      var bytes, fits := Encode(v);
      if !fits {
        return Overflow;
      }
      data := data[..p] + bytes + data[p + 0x20..];
      return Stored;
    }

    method Mload(p: nat) returns (o: Outcome)
      modifies this
      ensures data == After(old(data), Load(p))
      ensures o == Answer(old(data), Load(p))
    {
      if |data| < p + 0x20 {
        Extend(p + 0x20);
      }
      return Loaded(FromBytes(data[p..p + 0x20], 32));
    }
  }

  /** `to_bytes` raises for negative and for too large values. */
  method Encode(v: int) returns (bytes: seq<Byte>, fits: bool)
    ensures fits <==> Fits(v)
    ensures fits ==> bytes == ToBytes(v, 32)
  {
    if v < 0 {
      return [], false;
    }
    bytes := [];
    var rest: nat, n := v, 0;
    NoStep(v, 32);
    hide ToBytes, Power256;
    while n < 32
      invariant 0 <= n <= 32 && |bytes| == n
      invariant ToBytes(v, 32) == ToBytes(rest, 32 - n) + bytes
      invariant rest * Power256(n) <= v < (rest + 1) * Power256(n)
    {
      bytes := [rest % 256] + bytes;
      Step(rest, 32 - n);
      StepBounds(rest, n, v);
      rest := rest / 256;
      n := n + 1;
    }
    fits := rest == 0;
    NoStep(rest, 0);
    if rest > 0 { Grows(rest, 32); }
  }

  lemma NoStep(v: nat, n: nat)
    ensures ToBytes(v, n) == ToBytes(v, n) + [] && Power256(0) == 1 && ToBytes(v, 0) == []
  {
  }

  lemma Step(rest: nat, n: nat)
    requires n > 0
    ensures ToBytes(rest, n) == ToBytes(rest / 256, n - 1) + [rest % 256]
  {
  }

  lemma StepBounds(rest: nat, n: nat, v: nat)
    requires rest * Power256(n) <= v < (rest + 1) * Power256(n)
    ensures rest / 256 * Power256(n + 1) <= v < (rest / 256 + 1) * Power256(n + 1)
  {
    var q, p := rest / 256, Power256(n);
    assert q * Power256(n + 1) == (256 * q) * p;
    assert (q + 1) * Power256(n + 1) == (256 * q + 256) * p;
    Monotone(256 * q, rest, p);
    Monotone(rest + 1, 256 * q + 256, p);
  }

  lemma Monotone(a: nat, b: nat, p: nat)
    requires a <= b
    ensures a * p <= b * p
  {
  }

  lemma Grows(rest: nat, n: nat)
    requires rest > 0
    ensures rest * Power256(n) >= Power256(n)
  {
    Monotone(1, rest, Power256(n));
  }

  // ---------------------------------------------------------------- runs

  /** The buffer after the first `n` accesses, starting from `l` zero bytes. */
  ghost function Buffer(l: nat, run: seq<Access>, n: nat): seq<Byte>
    requires n <= |run|
    decreases n
  {
    if n == 0 then Zeros(l) else After(Buffer(l, run, n - 1), run[n - 1])
  }

  /**
   * Reference: byte `i` of a memory that is zero everywhere and in which each
   * store that fits overwrites 32 bytes. It has no buffer and no length.
   */
  ghost function ByteAfter(run: seq<Access>, n: nat, i: nat): Byte
    requires n <= |run|
    decreases n
  {
    if n == 0 then 0
    else
      var a := run[n - 1];
      if a.Store? && Fits(a.v) && a.p <= i < End(a)
      then ToBytes(a.v, 32)[i - a.p]
      else ByteAfter(run, n - 1, i)
  }

  function Cell(s: seq<Byte>, i: nat): Byte {
    if i < |s| then s[i] else 0
  }

  lemma AfterCell(s: seq<Byte>, a: Access, i: nat)
    ensures Cell(After(s, a), i)
         == if a.Store? && Fits(a.v) && a.p <= i < End(a) then ToBytes(a.v, 32)[i - a.p] else Cell(s, i)
  {
  }

  lemma {:induction false} BufferIsMemory(l: nat, run: seq<Access>, n: nat, i: nat)
    requires n <= |run|
    ensures Cell(Buffer(l, run, n), i) == ByteAfter(run, n, i)
    decreases n
  {
    hide *;
    if n == 0 {
      NothingStored(l, run, i);
    } else {
      BufferIsMemory(l, run, n - 1, i);
      NextAccess(l, run, n, i);
    }
  }

  lemma NothingStored(l: nat, run: seq<Access>, i: nat)
    ensures Cell(Buffer(l, run, 0), i) == ByteAfter(run, 0, i)
  {
  }

  lemma NextAccess(l: nat, run: seq<Access>, n: nat, i: nat)
    requires 0 < n <= |run| && Cell(Buffer(l, run, n - 1), i) == ByteAfter(run, n - 1, i)
    ensures Cell(Buffer(l, run, n), i) == ByteAfter(run, n, i)
  {
    AfterCell(Buffer(l, run, n - 1), run[n - 1], i);
    hide After, Fits, Cell, ToBytes;
  }

  ghost function Window(run: seq<Access>, n: nat, p: nat): (w: seq<Byte>)
    requires n <= |run|
    ensures |w| == 32
  {
    seq<Byte>(32, k requires 0 <= k < 32 => ByteAfter(run, n, p + k))
  }

  /** Every load of every run answers what the unbounded memory holds. */
  lemma EveryLoadIsRight(l: nat, run: seq<Access>, n: nat)
    requires n < |run| && run[n].Load?
    ensures Answer(Buffer(l, run, n), run[n]) == Loaded(FromBytes(Window(run, n, run[n].p), 32))
  {
    hide Buffer, ByteAfter, FromBytes, ToBytes, Extended, After;
    var p := run[n].p;
    forall k | 0 <= k < 32 ensures Cell(Buffer(l, run, n), p + k) == Window(run, n, p)[k] {
      BufferIsMemory(l, run, n, p + k);
    }
    ExtendedWindow(Buffer(l, run, n), p, Window(run, n, p));
  }

  lemma ExtendedWindow(s: seq<Byte>, p: nat, w: seq<Byte>)
    requires |w| == 32 && forall k :: 0 <= k < 32 ==> Cell(s, p + k) == w[k]
    ensures Extended(s, p + 32)[p..p + 32] == w
  {
    var e := Extended(s, p + 32);
    forall k | 0 <= k < 32 ensures e[p..p + 32][k] == w[k] {
      assert e[p + k] == Cell(s, p + k);
    }
  }

  ghost predicate Overlaps(a: Access, p: nat) {
    a.Store? && Fits(a.v) && a.p < p + 32 && p < End(a)
  }

  /**
   * A word is read back as long as every later store that fits keeps clear of
   * its 32 bytes, and whatever value it replaced.
   */
  lemma {:induction false} WordSurvives(l: nat, run: seq<Access>, m: nat, n: nat)
    requires m < n < |run| && run[m].Store? && Fits(run[m].v)
    requires run[n] == Load(run[m].p)
    requires forall j | m < j < n :: !Overlaps(run[j], run[m].p)
    ensures Answer(Buffer(l, run, n), run[n]) == Loaded(run[m].v)
  {
    hide Answer, Buffer, Window, ByteAfter, FromBytes, ToBytes;
    EveryLoadIsRight(l, run, n);
    StoredWindow(run, m, n);
    DecodeEncode(run[m].v, 32);
  }

  /** The words that fit are those from 0 up to 2^256. */
  lemma FitsIff(v: int)
    ensures Fits(v)
       <==> 0 <= v < 0x1_00000000_00000000_00000000_00000000_00000000_00000000_00000000_00000000
  {
    hide Power256;
    PowerAdds(0, 0);
    PowerAdds(1, 1);
    PowerAdds(2, 2);
    PowerAdds(4, 4);
    PowerAdds(8, 8);
    PowerAdds(16, 16);
  }

  lemma {:induction false} PowerAdds(m: nat, n: nat)
    ensures Power256(0) == 1 && Power256(1) == 256 && Power256(m + n) == Power256(m) * Power256(n)
  {
    if m > 0 {
      PowerAdds(m - 1, n);
      Associate(Power256(m - 1), Power256(n));
    }
  }

  lemma Associate(x: nat, y: nat)
    ensures 256 * (x * y) == (256 * x) * y
  {
  }

  /** Every word the machine can hold is read back, and every other value is refused. */
  lemma WordsBelow2To256Survive(l: nat, run: seq<Access>, m: nat, n: nat)
    requires m < n < |run| && run[m].Store?
    requires run[n] == Load(run[m].p)
    requires forall j | m < j < n :: !Overlaps(run[j], run[m].p)
    ensures 0 <= run[m].v < 0x1_00000000_00000000_00000000_00000000_00000000_00000000_00000000_00000000
            ==> Answer(Buffer(l, run, n), run[n]) == Loaded(run[m].v)
    ensures !(0 <= run[m].v < 0x1_00000000_00000000_00000000_00000000_00000000_00000000_00000000_00000000)
            ==> Answer(Buffer(l, run, m), run[m]) == Overflow
  {
    hide Buffer, Power256, Fits;
    FitsIff(run[m].v);
    if Fits(run[m].v) { WordSurvives(l, run, m, n); }
  }

  lemma StoredWindow(run: seq<Access>, m: nat, n: nat)
    requires m < n <= |run| && run[m].Store? && Fits(run[m].v)
    requires forall j | m < j < n :: !Overlaps(run[j], run[m].p)
    ensures Window(run, n, run[m].p) == ToBytes(run[m].v, 32)
  {
    hide ToBytes, Overlaps, ByteAfter;
    var p, word := run[m].p, ToBytes(run[m].v, 32);
    forall k | 0 <= k < 32 ensures Window(run, n, p)[k] == word[k] {
      Untouched(run, m, n, p + k);
      JustStored(run, m, k);
    }
  }

  lemma JustStored(run: seq<Access>, m: nat, k: nat)
    requires m < |run| && run[m].Store? && Fits(run[m].v) && k < 32
    ensures ByteAfter(run, m + 1, run[m].p + k) == ToBytes(run[m].v, 32)[k]
  {
    hide ToBytes;
  }

  lemma {:induction false} Untouched(run: seq<Access>, m: nat, n: nat, i: nat)
    requires m < n <= |run| && run[m].Store? && run[m].p <= i < End(run[m])
    requires forall j | m < j < n :: !Overlaps(run[j], run[m].p)
    ensures ByteAfter(run, n, i) == ByteAfter(run, m + 1, i)
    decreases n
  {
    if m + 1 < n { Untouched(run, m, n - 1, i); }
  }

  /** The low-order bytes of the word stored by access `n`, then the older bytes. */
  ghost function Spliced(run: seq<Access>, n: nat, p: nat): (w: seq<Byte>)
    requires n < |run| && run[n].Store? && Fits(run[n].v) && run[n].p <= p < End(run[n])
    ensures |w| == 32
  {
    ToBytes(run[n].v, 32)[p - run[n].p..] + Window(run, n, p)[End(run[n]) - p..]
  }

  /**
   * A word load at `p` after a store at `q` with `q <= p < q + 32`, the
   * misaligned overlap: the low bytes come from the stored word, the rest is
   * what was there before.
   */
  lemma MisalignedLoad(l: nat, run: seq<Access>, n: nat)
    requires 0 < n < |run| && run[n].Load? && run[n - 1].Store? && Fits(run[n - 1].v)
    requires run[n - 1].p <= run[n].p < End(run[n - 1])
    ensures Answer(Buffer(l, run, n), run[n])
         == Loaded(FromBytes(Spliced(run, n - 1, run[n].p), 32))
  {
    hide *;
    EveryLoadIsRight(l, run, n);
    SplicedWindow(run, n - 1, run[n].p);
  }

  lemma SplicedWindow(run: seq<Access>, n: nat, p: nat)
    requires n < |run| && run[n].Store? && Fits(run[n].v) && run[n].p <= p < End(run[n])
    ensures Window(run, n + 1, p) == Spliced(run, n, p)
  {
    hide ToBytes;
    var got, want := Window(run, n + 1, p), Spliced(run, n, p);
    forall k | 0 <= k < 32 ensures got[k] == want[k] {
      assert got[k] == ByteAfter(run, n + 1, p + k);
    }
  }

  // ---------------------------------------------------------------- growth

  /** Highest end position among the first `n` accesses. */
  ghost function Touched(run: seq<Access>, n: nat): nat
    requires n <= |run|
    decreases n
  {
    if n == 0 then 0
    else if Touched(run, n - 1) < End(run[n - 1]) then End(run[n - 1])
    else Touched(run, n - 1)
  }

  /** How often the buffer was extended. */
  ghost function Extensions(l: nat, run: seq<Access>, n: nat): nat
    requires n <= |run|
    decreases n
  {
    if n == 0 then 0
    else Extensions(l, run, n - 1) + if |Buffer(l, run, n - 1)| < End(run[n - 1]) then 1 else 0
  }

  /** The generous growth costs less than a factor of two. */
  lemma {:induction false} BufferStaysBelowTwice(l: nat, run: seq<Access>, n: nat)
    requires n <= |run|
    ensures Touched(run, n) <= |Buffer(l, run, n)|
    ensures Extensions(l, run, n) == 0 ==> |Buffer(l, run, n)| == l
    ensures Extensions(l, run, n) > 0 ==> |Buffer(l, run, n)| < 2 * Touched(run, n)
    decreases n
  {
    hide Buffer;
    if n > 0 {
      BufferStaysBelowTwice(l, run, n - 1);
      BufferGrows(l, run, n);
    } else {
      FirstBuffer(l, run);
    }
  }

  /** And it pays: `k` extensions need accesses at positions exponential in `k`. */
  lemma {:induction false} ExtensionsAreRare(l: nat, run: seq<Access>, n: nat)
    requires n <= |run|
    ensures var k := Extensions(l, run, n);
            k > 0 ==> 16 * Power2(k) <= |Buffer(l, run, n)| && 8 * Power2(k) < Touched(run, n)
    decreases n
  {
    hide Buffer, Power2;
    if n > 0 {
      ExtensionsAreRare(l, run, n - 1);
      BufferStaysBelowTwice(l, run, n);
      BufferGrows(l, run, n);
      Doubled(Extensions(l, run, n - 1));
    }
  }

  lemma Doubled(k: nat)
    ensures Power2(k + 1) == 2 * Power2(k) && Power2(0) == 1
  {
  }

  lemma FirstBuffer(l: nat, run: seq<Access>)
    ensures |Buffer(l, run, 0)| == l
  {
  }

  /** An extension at least doubles the buffer, which then holds 32 bytes or more. */
  lemma BufferGrows(l: nat, run: seq<Access>, n: nat)
    requires 0 < n <= |run|
    ensures var (before, after, end) := (|Buffer(l, run, n - 1)|, |Buffer(l, run, n)|, End(run[n - 1]));
            after == (if before < end then before + end else before) && end >= 32
  {
  }
}
