/** Finding the past values of a storage slot by bisection over block numbers. */
module Bisection {
  import opened Collections

  /** The words the node has for a slot, by block; for other blocks it returns no data. */
  type Chain = map<nat, nat>

  /** No data and the zero word both count as 0. */
  function ValueAt(chain: Chain, block: nat): nat {
    if block in chain then chain[block] else 0
  }

  /** The blocks whose value a search of l..r asks for. */
  function Probed(chain: Chain, l: nat, r: nat): set<nat>
    decreases r - l
  {
    if ValueAt(chain, l) == ValueAt(chain, r) || r <= l + 1 then {l, r}
    else Probed(chain, l, (l + r) / 2) + Probed(chain, (l + r) / 2, r)
  }

  /** The members of s below n in increasing order. */
  function Sorted(s: set<nat>, n: nat): (ks: seq<nat>)
    ensures forall i, j :: 0 <= i < j < |ks| ==> ks[i] < ks[j]
    ensures forall k :: k in ks <==> k in s && k < n
    ensures forall i :: 0 <= i < |ks| ==> ks[i] in s && ks[i] < n
  {
    if n == 0 then [] else
    var ks := Sorted(s, n - 1);
    assert forall i :: 0 <= i < |ks| ==> ks[i] in ks;
    if n - 1 in s then ks + [n - 1] else ks
  }

  /** The list built from the first n values: it starts as [0] and grows on every change. */
  function Runs(vs: seq<nat>, n: nat): (r: seq<nat>)
    requires n <= |vs|
    ensures r != []
  {
    if n == 0 then [0] else
    var r := Runs(vs, n - 1);
    if vs[n - 1] != r[|r| - 1] then r + [vs[n - 1]] else r
  }

  /** The values at blocks ks. */
  function Sample(chain: Chain, ks: seq<nat>): (vs: seq<nat>)
    ensures |vs| == |ks| && forall i :: 0 <= i < |ks| ==> vs[i] == ValueAt(chain, ks[i])
  {
    seq(|ks|, i requires 0 <= i < |ks| => ValueAt(chain, ks[i]))
  }

  /** The run-collapsed list of the values at blocks ks, a leading zero dropped. */
  function Collapsed(chain: Chain, ks: seq<nat>): seq<nat> {
    Runs(Sample(chain, ks), |ks|)[1..]
  }

  lemma HalvesProbed(chain: Chain, known: set<nat>, l: nat, r: nat)
    requires ValueAt(chain, l) != ValueAt(chain, r) && l + 1 < r
    ensures var mid := (l + r) / 2;
            known + {l} + {r} + {mid} + Probed(chain, l, mid) + Probed(chain, mid, r) == known + Probed(chain, l, r)
  {
    ProbedInRange(chain, l, (l + r) / 2);
    ProbedInRange(chain, (l + r) / 2, r);
  }

  class SlotHistory {
    const chain: Chain
    var table: map<nat, nat>
    ghost var fetched: multiset<nat>  // blocks asked from the node

    constructor (chain: Chain)
      ensures this.chain == chain && table == map[] && Valid()
    {
      this.chain, table, fetched := chain, map[], multiset{};
    }

    /** The table caches the chain, and every block in it has been fetched exactly once. */
    ghost predicate Valid()
      reads this
    {
      (forall b :: b in table ==> table[b] == ValueAt(chain, b)) && fetched == multiset(table.Keys)
    }

    method GetVal(block: nat) returns (v: nat)
      requires Valid()
      modifies this`table, this`fetched
      ensures Valid() && v == ValueAt(chain, block)
      ensures table.Keys == old(table.Keys) + {block}
    {
      if block !in table {
        fetched := fetched + multiset{block};
        var val := if block in chain then chain[block] else 0;
        table := table[block := val];
      }
      v := table[block];
    }

    method SearchDiff(l: nat, r: nat)
      requires Valid()
      modifies this`table, this`fetched
      ensures Valid() && table.Keys == old(table.Keys) + Probed(chain, l, r)
      decreases r - l
    {
      var atL := GetVal(l);
      var atR := GetVal(r);
      if atL == atR || r as int - l as int <= 1 { return; }
      var mid := (l + r) / 2;
      var atMid := GetVal(mid);
      ghost var asked := table.Keys;
      if atMid != atL {
        SearchDiff(l, mid);
      }
      ghost var left := table.Keys;
      assert left == asked + Probed(chain, l, mid);
      if atMid != atR {
        SearchDiff(mid, r);
      }
      assert table.Keys == left + Probed(chain, mid, r);
      HalvesProbed(chain, old(table.Keys), l, r);
    }

    /** Walks the cached blocks in order and keeps every value that differs from the last. */
    method CollapseTable(ks: seq<nat>) returns (logicContracts: seq<nat>)
      requires Valid() && forall k :: k in ks ==> k in table
      ensures logicContracts == Collapsed(chain, ks)
    {
      logicContracts := [0];
      for i := 0 to |ks|
        invariant logicContracts == Runs(Sample(chain, ks), i)
      {
        assert ks[i] in ks;
        if table[ks[i]] != logicContracts[|logicContracts| - 1] {
          logicContracts := logicContracts + [table[ks[i]]];
        }
      }
      logicContracts := logicContracts[1..];
    }

    method BinarySearch(right: nat) returns (logicContracts: seq<nat>)
      requires Valid() && table == map[]
      modifies this`table, this`fetched
      ensures Valid() && table.Keys == Probed(chain, 1, right)
      ensures logicContracts == Collapsed(chain, ProbedBlocks(chain, right))
    {
      SearchDiff(1, right);
      assert table.Keys == Probed(chain, 1, right);
      logicContracts := CollapseTable(Sorted(table.Keys, Bound(right)));
    }
  }

  /** A block number above all those probed. */
  function Bound(right: nat): nat { (if right > 1 then right else 1) + 1 }

  function ProbedBlocks(chain: Chain, right: nat): seq<nat> {
    Sorted(Probed(chain, 1, right), Bound(right))
  }

  // ----- which blocks are probed -----

  /** Between two neighbouring probed blocks the value does not change end to end, or there
      is no block. */
  ghost predicate Resolved(chain: Chain, s: set<nat>) {
    forall p, q :: p in s && q in s && p < q && (forall k :: p < k < q ==> k !in s) ==>
      ValueAt(chain, p) == ValueAt(chain, q) || q == p + 1
  }

  lemma {:induction false} ProbedInRange(chain: Chain, l: nat, r: nat)
    requires l <= r
    ensures l in Probed(chain, l, r) && r in Probed(chain, l, r)
    ensures forall k :: k in Probed(chain, l, r) ==> l <= k <= r
    decreases r - l
  {
    if ValueAt(chain, l) != ValueAt(chain, r) && r > l + 1 {
      var mid := (l + r) / 2;
      ProbedInRange(chain, l, mid);
      ProbedInRange(chain, mid, r);
    }
  }

  lemma ResolvedUnion(chain: Chain, a: set<nat>, b: set<nat>, mid: nat)
    requires Resolved(chain, a) && Resolved(chain, b) && mid in a && mid in b
    requires (forall k :: k in a ==> k <= mid) && (forall k :: k in b ==> mid <= k)
    ensures Resolved(chain, a + b)
  {
    forall p, q | p in a + b && q in a + b && p < q && (forall k :: p < k < q ==> k !in a + b)
      ensures ValueAt(chain, p) == ValueAt(chain, q) || q == p + 1
    {
      assert !(p < mid < q) by { assert mid in a + b; }
      if q <= mid {
        assert p in a && q in a && forall k :: p < k < q ==> k !in a;
      } else {
        assert p in b && q in b && forall k :: p < k < q ==> k !in b;
      }
    }
  }

  lemma {:induction false} ProbedIsResolved(chain: Chain, l: nat, r: nat)
    requires l <= r
    ensures Resolved(chain, Probed(chain, l, r))
    decreases r - l
  {
    if ValueAt(chain, l) != ValueAt(chain, r) && r > l + 1 {
      var mid := (l + r) / 2;
      ProbedIsResolved(chain, l, mid);
      ProbedIsResolved(chain, mid, r);
      ProbedInRange(chain, l, mid);
      ProbedInRange(chain, mid, r);
      ResolvedUnion(chain, Probed(chain, l, mid), Probed(chain, mid, r), mid);
    }
  }

  // ----- the query bound -----

  function CeilLog2(d: nat): nat
    decreases d
  {
    if d <= 1 then 0 else 1 + CeilLog2((d + 1) / 2)
  }

  /** CeilLog2(d) is the least exponent whose power of two reaches d. */
  lemma {:induction false} CeilLog2IsLeast(d: nat)
    ensures d <= Power2(CeilLog2(d))
    ensures d > 1 ==> Power2(CeilLog2(d) - 1) < d
    decreases d
  {
    if d > 1 { CeilLog2IsLeast((d + 1) / 2); }
  }

  lemma {:induction false} CeilLog2Monotone(a: nat, b: nat)
    requires a <= b
    ensures CeilLog2(a) <= CeilLog2(b)
    decreases b
  {
    if a > 1 { CeilLog2Monotone((a + 1) / 2, (b + 1) / 2); }
  }

  /** Number of blocks in l..r whose value differs from that of the block before. */
  function Changes(chain: Chain, l: nat, r: nat): nat
    decreases r
  {
    if r <= l then 0 else
    Changes(chain, l, r - 1) + if ValueAt(chain, r - 1) != ValueAt(chain, r) then 1 else 0
  }

  lemma {:induction false} ChangesAdd(chain: Chain, l: nat, m: nat, r: nat)
    requires l <= m <= r
    ensures Changes(chain, l, r) == Changes(chain, l, m) + Changes(chain, m, r)
    decreases r
  {
    if m < r { ChangesAdd(chain, l, m, r - 1); }
  }

  lemma {:induction false} DifferenceIsChange(chain: Chain, l: nat, r: nat)
    requires l <= r && ValueAt(chain, l) != ValueAt(chain, r)
    ensures Changes(chain, l, r) >= 1
    decreases r
  {
    if ValueAt(chain, r - 1) == ValueAt(chain, r) { DifferenceIsChange(chain, l, r - 1); }
  }

  /** Queries allowed strictly inside l..r. */
  function Budget(chain: Chain, l: nat, r: nat): nat
    requires l <= r
  {
    Changes(chain, l, r) * CeilLog2(r - l)
  }

  lemma {:induction false} InnerBound(chain: Chain, l: nat, r: nat)
    requires l <= r
    ensures |Probed(chain, l, r) - {l, r}| <= Budget(chain, l, r)
    decreases r - l
  {
    var inner := Probed(chain, l, r) - {l, r};
    if ValueAt(chain, l) == ValueAt(chain, r) || r <= l + 1 {
      assert inner == {};
    } else {
      var mid := (l + r) / 2;
      InnerBound(chain, l, mid);
      InnerBound(chain, mid, r);
      var left, right := Probed(chain, l, mid) - {l, mid}, Probed(chain, mid, r) - {mid, r};
      assert inner <= {mid} + left + right;
      Bounded(inner, mid, left, right);
      HalvesBound(chain, l, r);
    }
  }

  lemma HalvesBound(chain: Chain, l: nat, r: nat)
    requires r > l + 1 && ValueAt(chain, l) != ValueAt(chain, r)
    ensures var mid := (l + r) / 2;
            1 + Budget(chain, l, mid) + Budget(chain, mid, r) <= Budget(chain, l, r)
  {
    var mid, c := (l + r) / 2, CeilLog2(r - l);
    ChangesAdd(chain, l, mid, r);
    CeilLog2Monotone(mid - l, (r - l + 1) / 2);
    CeilLog2Monotone(r - mid, (r - l + 1) / 2);
    Scale(Changes(chain, l, mid), CeilLog2(mid - l), c - 1);
    Scale(Changes(chain, mid, r), CeilLog2(r - mid), c - 1);
    DifferenceIsChange(chain, l, r);
    Distribute(Changes(chain, l, mid), Changes(chain, mid, r), c);
  }

  lemma Scale(k: nat, a: nat, b: nat)
    requires a <= b
    ensures k * a <= k * b
  {
  }

  lemma Distribute(k1: nat, k2: nat, c: nat)
    requires c >= 1 && k1 + k2 >= 1
    ensures 1 + k1 * (c - 1) + k2 * (c - 1) <= (k1 + k2) * c
  {
  }

  lemma Bounded(s: set<nat>, m: nat, a: set<nat>, b: set<nat>)
    requires s <= {m} + a + b
    ensures |s| <= 1 + |a| + |b|
  {
    SubsetSize(s, {m} + a + b);
  }

  /** A history with k changes needs at most 2 + k * ceil(log2(n - 1)) queries. */
  lemma QueryBound(chain: Chain, n: nat)
    requires n >= 2
    ensures |Probed(chain, 1, n)| <= 2 + Changes(chain, 1, n) * CeilLog2(n - 1)
  {
    ProbedInRange(chain, 1, n);
    InnerBound(chain, 1, n);
    assert Probed(chain, 1, n) == (Probed(chain, 1, n) - {1, n}) + {1, n};
  }

  // ----- what the collapsed list says -----

  /** The last entry is the last value, and no two neighbours are equal. */
  lemma {:induction false} RunsShape(vs: seq<nat>, n: nat)
    requires n <= |vs|
    ensures Runs(vs, n)[0] == 0
    ensures n > 0 ==> Runs(vs, n)[|Runs(vs, n)| - 1] == vs[n - 1]
    ensures forall i :: 0 <= i < |Runs(vs, n)| - 1 ==> Runs(vs, n)[i] != Runs(vs, n)[i + 1]
  {
    if n > 0 { RunsShape(vs, n - 1); }
  }

  /** Positions of the values that were kept. */
  function Kept(vs: seq<nat>, n: nat): (ix: seq<nat>)
    requires n <= |vs|
    ensures |ix| == |Runs(vs, n)| - 1
    ensures forall i :: 0 <= i < |ix| ==> ix[i] < n && vs[ix[i]] == Runs(vs, n)[i + 1]
    ensures forall i, j :: 0 <= i < j < |ix| ==> ix[i] < ix[j]
  {
    if n == 0 then [] else
    var ix := Kept(vs, n - 1);
    if vs[n - 1] != Runs(vs, n - 1)[|Runs(vs, n - 1)| - 1] then ix + [n - 1] else ix
  }

  /** For any history the list is a stutter-free chronological selection of past values that
      ends in the value at the right block whenever that is not zero. */
  lemma CollapsedIsSound(chain: Chain, right: nat)
    requires right >= 1
    ensures var (ks, r) := (ProbedBlocks(chain, right), Collapsed(chain, ProbedBlocks(chain, right)));
            var at := Kept(Sample(chain, ks), |ks|);
            && |at| == |r|
            && (forall i :: 0 <= i < |r| ==> r[i] == ValueAt(chain, ks[at[i]]) && 1 <= ks[at[i]] <= right)
            && (forall i, j :: 0 <= i < j < |r| ==> ks[at[i]] < ks[at[j]])
            && (forall i :: 0 <= i < |r| - 1 ==> r[i] != r[i + 1])
            && (ValueAt(chain, right) != 0 ==> r != [] && r[|r| - 1] == ValueAt(chain, right))
  {
    var ks := ProbedBlocks(chain, right);
    var vs := Sample(chain, ks);
    RunsShape(vs, |ks|);
    ProbedBlocksAreResolved(chain, right);
    var runs := Runs(vs, |ks|);
    hide Runs, ProbedBlocks, GapsResolved;
    forall i | 0 <= i < |runs| - 2 ensures runs[1..][i] != runs[1..][i + 1] { assert runs[i + 1] != runs[i + 2]; }
  }

  /** Neighbouring sampled blocks hold the same value or follow each other directly. */
  ghost predicate GapsResolved(chain: Chain, ks: seq<nat>) {
    forall i :: 0 <= i < |ks| - 1 ==>
      ks[i] < ks[i + 1] && (ValueAt(chain, ks[i]) == ValueAt(chain, ks[i + 1]) || ks[i + 1] == ks[i] + 1)
  }

  lemma NothingBetween(s: set<nat>, n: nat, i: nat, k: nat)
    requires i + 1 < |Sorted(s, n)| && Sorted(s, n)[i] < k < Sorted(s, n)[i + 1]
    ensures k !in s
  {
    var ks := Sorted(s, n);
    assert k in ks ==> exists m :: 0 <= m < |ks| && ks[m] == k;
  }

  lemma SortedEnds(s: set<nat>, n: nat, lo: nat, hi: nat)
    requires lo in s && hi in s && hi < n && forall k :: k in s ==> lo <= k <= hi
    ensures var ks := Sorted(s, n); ks != [] && ks[0] == lo && ks[|ks| - 1] == hi
  {
    var ks := Sorted(s, n);
    assert lo in ks && hi in ks;
    assert forall i :: 0 <= i < |ks| ==> lo <= ks[i] <= hi;
  }

  lemma ProbedBlocksAreResolved(chain: Chain, right: nat)
    requires right >= 1
    ensures var ks := ProbedBlocks(chain, right);
            && ks != [] && ks[0] == 1 && ks[|ks| - 1] == right && GapsResolved(chain, ks)
            && forall i :: 0 <= i < |ks| ==> 1 <= ks[i] <= right
  {
    var s, ks := Probed(chain, 1, right), ProbedBlocks(chain, right);
    ProbedInRange(chain, 1, right);
    SortedEnds(s, Bound(right), 1, right);
    forall i | 0 <= i < |ks| - 1
      ensures ValueAt(chain, ks[i]) == ValueAt(chain, ks[i + 1]) || ks[i + 1] == ks[i] + 1
    {
      NeighboursResolved(chain, right, i);
    }
  }

  lemma NeighboursResolved(chain: Chain, right: nat, i: nat)
    requires right >= 1 && i + 1 < |ProbedBlocks(chain, right)|
    ensures var (p, q) := (ProbedBlocks(chain, right)[i], ProbedBlocks(chain, right)[i + 1]);
            ValueAt(chain, p) == ValueAt(chain, q) || q == p + 1
  {
    var s, ks := Probed(chain, 1, right), ProbedBlocks(chain, right);
    ProbedIsResolved(chain, 1, right);
    forall k | ks[i] < k < ks[i + 1] ensures k !in s { NothingBetween(s, Bound(right), i, k); }
  }

  // ----- when the list is complete -----

  /** Blocks 1..n. */
  function AllBlocks(n: nat): (ks: seq<nat>)
    ensures |ks| == n && forall i :: 0 <= i < n ==> ks[i] == i + 1
  {
    seq(n, i requires 0 <= i < n => i + 1)
  }

  /** The value stays the same from block p to block q. */
  ghost predicate Flat(chain: Chain, p: nat, q: nat) {
    forall j :: p <= j <= q ==> ValueAt(chain, j) == ValueAt(chain, p)
  }

  /** Among the first n sampled blocks, every stretch that was skipped because its ends agree
      holds one value only. */
  ghost predicate NothingHidden(chain: Chain, ks: seq<nat>, n: nat)
    requires n <= |ks|
  {
    n <= 1 || (NothingHidden(chain, ks, n - 1) && (ks[n - 1] == ks[n - 2] + 1 || Flat(chain, ks[n - 2], ks[n - 1])))
  }

  lemma FlatSnoc(chain: Chain, p: nat, q: nat)
    requires p < q
    ensures Flat(chain, p, q) <==> Flat(chain, p, q - 1) && ValueAt(chain, q) == ValueAt(chain, q - 1)
  {
    assert Flat(chain, p, q) ==> ValueAt(chain, q - 1) == ValueAt(chain, p);
    assert Flat(chain, p, q - 1) ==> ValueAt(chain, q - 1) == ValueAt(chain, p);
  }

  /** Over a stretch the list grows, and it stays as it is exactly over a flat one. */
  lemma {:induction false} StretchGrows(chain: Chain, n: nat, p: nat, q: nat)
    requires 1 <= p <= q <= n
    ensures var full := Sample(chain, AllBlocks(n));
            && |Runs(full, p)| <= |Runs(full, q)|
            && (Flat(chain, p, q) <==> |Runs(full, p)| == |Runs(full, q)|)
            && (Flat(chain, p, q) ==> Runs(full, p) == Runs(full, q))
    decreases q
  {
    var full := Sample(chain, AllBlocks(n));
    if p < q {
      StretchGrows(chain, n, p, q - 1);
      RunsShape(full, q - 1);
      assert full[q - 1] == ValueAt(chain, q) && full[q - 2] == ValueAt(chain, q - 1);
      FlatSnoc(chain, p, q);
      if ValueAt(chain, q) == ValueAt(chain, q - 1) {
        assert Runs(full, q) == Runs(full, q - 1);
      } else {
        assert |Runs(full, q)| == |Runs(full, q - 1)| + 1;
      }
    }
  }

  ghost predicate Spans(chain: Chain, ks: seq<nat>, n: nat) {
    && GapsResolved(chain, ks) && ks != [] && ks[0] == 1
    && forall i :: 0 <= i < |ks| ==> 1 <= ks[i] <= n
  }

  lemma SampleStep(chain: Chain, ks: seq<nat>, n: nat, m: nat)
    requires Spans(chain, ks, n) && 2 <= m <= |ks|
    ensures var (vs, full, p, q) := (Sample(chain, ks), Sample(chain, AllBlocks(n)), ks[m - 2], ks[m - 1]);
            if vs[m - 2] == vs[m - 1] then Runs(vs, m) == Runs(vs, m - 1)
            else
              && q == p + 1
              && Runs(vs, m) == Runs(vs, m - 1) + [vs[m - 1]] && Runs(full, q) == Runs(full, p) + [vs[m - 1]]
  {
    RunsShape(Sample(chain, ks), m - 1);
    RunsShape(Sample(chain, AllBlocks(n)), ks[m - 2]);
  }

  /** The sampled list never gets longer than the full one, and the two agree exactly while
      nothing is hidden. */
  lemma {:induction false} SampleAgainstFull(chain: Chain, ks: seq<nat>, n: nat, m: nat)
    requires Spans(chain, ks, n) && 1 <= m <= |ks|
    ensures var (part, full) := (Runs(Sample(chain, ks), m), Runs(Sample(chain, AllBlocks(n)), ks[m - 1]));
            && |part| <= |full|
            && (NothingHidden(chain, ks, m) <==> |part| == |full|)
            && (NothingHidden(chain, ks, m) ==> part == full)
    decreases m
  {
    var vs, full := Sample(chain, ks), Sample(chain, AllBlocks(n));
    if m == 1 {
      assert Runs(vs, 0) == [0] == Runs(full, 0) && full[0] == ValueAt(chain, 1);
    } else {
      var p, q := ks[m - 2], ks[m - 1];
      SampleAgainstFull(chain, ks, n, m - 1);
      SampleStep(chain, ks, n, m);
      if vs[m - 2] == vs[m - 1] {
        StretchGrows(chain, n, p, q);
        assert q == p + 1 ==> Flat(chain, p, q);
      }
    }
  }

  /** The list equals the run-collapsed history exactly when no skipped stretch, one whose
      ends agree, hides another value. */
  lemma CompleteIffNothingHidden(chain: Chain, right: nat)
    requires right >= 1
    ensures var ks := ProbedBlocks(chain, right);
            Collapsed(chain, ks) == Collapsed(chain, AllBlocks(right)) <==> NothingHidden(chain, ks, |ks|)
  {
    var ks := ProbedBlocks(chain, right);
    ProbedBlocksAreResolved(chain, right);
    SampleAgainstFull(chain, ks, right, |ks|);
    var part, full := Runs(Sample(chain, ks), |ks|), Runs(Sample(chain, AllBlocks(right)), right);
    RunsShape(Sample(chain, ks), |ks|);
    RunsShape(Sample(chain, AllBlocks(right)), right);
    hide NothingHidden, Runs, Sample, AllBlocks, ProbedBlocks, Spans;
    SameTails(part, full);
  }

  lemma SameTails(part: seq<nat>, full: seq<nat>)
    requires part != [] && full != [] && part[0] == full[0] && (|part| == |full| ==> part == full)
    ensures part[1..] == full[1..] <==> |part| == |full|
  {
    if part[1..] == full[1..] { assert |part| == 1 + |part[1..]| && |full| == 1 + |full[1..]|; }
  }

  /** No value comes back after it has been replaced. */
  ghost predicate NoRecurrence(chain: Chain, n: nat) {
    forall i, j, k :: 1 <= i < j < k <= n && ValueAt(chain, i) == ValueAt(chain, k)
                      ==> ValueAt(chain, j) == ValueAt(chain, i)
  }

  /** Without a recurring value nothing is hidden, so the list is the whole history. */
  lemma CompleteWithoutRecurrence(chain: Chain, right: nat)
    requires right >= 1 && NoRecurrence(chain, right)
    ensures Collapsed(chain, ProbedBlocks(chain, right)) == Collapsed(chain, AllBlocks(right))
  {
    ProbedBlocksAreResolved(chain, right);
    CompleteIffNothingHidden(chain, right);
    var ks := ProbedBlocks(chain, right);
    NothingHiddenWithoutRecurrence(chain, ks, right, |ks|);
  }

  lemma {:induction false} NothingHiddenWithoutRecurrence(chain: Chain, ks: seq<nat>, right: nat, n: nat)
    requires NoRecurrence(chain, right) && Spans(chain, ks, right) && n <= |ks|
    ensures NothingHidden(chain, ks, n)
  {
    if n > 1 { NothingHiddenWithoutRecurrence(chain, ks, right, n - 1); }
  }

  /** A value that is back at the right block hides whatever came in between: the search stops at
      once and returns that one value. */
  lemma ReturningValueHidesTheRest(chain: Chain, right: nat, m: nat)
    requires 1 < m < right && ValueAt(chain, right) == ValueAt(chain, 1) && ValueAt(chain, m) != ValueAt(chain, 1)
    ensures var v, found := ValueAt(chain, 1), Collapsed(chain, ProbedBlocks(chain, right));
            found == (if v == 0 then [] else [v]) && found != Collapsed(chain, AllBlocks(right))
  {
    var ks := ProbedBlocks(chain, right);
    assert Probed(chain, 1, right) == {1, right};
    ProbedBlocksAreResolved(chain, right);
    forall i | 0 <= i < |ks| ensures ks[i] == 1 || ks[i] == right { assert ks[i] in ks; }
    SameValues(Sample(chain, ks), |ks|, ValueAt(chain, 1));
    assert !Flat(chain, ks[0], ks[1]);
    HiddenStays(chain, ks, 2, |ks|);
    CompleteIffNothingHidden(chain, right);
  }

  lemma {:induction false} SameValues(vs: seq<nat>, n: nat, v: nat)
    requires 1 <= n <= |vs| && forall i :: 0 <= i < |vs| ==> vs[i] == v
    ensures Runs(vs, n) == if v == 0 then [0] else [0, v]
  {
    if n > 1 { SameValues(vs, n - 1, v); } else { assert Runs(vs, 0) == [0]; }
  }

  lemma {:induction false} HiddenStays(chain: Chain, ks: seq<nat>, m: nat, n: nat)
    requires m <= n <= |ks| && !NothingHidden(chain, ks, m)
    ensures !NothingHidden(chain, ks, n)
  {
    if m < n { HiddenStays(chain, ks, m, n - 1); }
  }
}
