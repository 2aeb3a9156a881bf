/** Packing state variables into 32-byte storage slots. */
module StorageLayout {

  /** size and newSlot are the type's storage_size; fixed marks constants and immutables. */
  datatype Variable = Variable(name: string, size: nat, newSlot: bool, fixed: bool)

  datatype Place = Place(slot: nat, offset: nat)

  /** Packed variables fit in a slot. */
  predicate Packable(vars: seq<Variable>) {
    forall v :: v in vars && !v.newSlot ==> v.size <= 32
  }

  function Ceil32(n: nat): nat { (n + 31) / 32 }

  /** Where v goes when the cursor stands at c. */
  function Start(c: Place, v: Variable): Place {
    if v.newSlot then (if c.offset > 0 then Place(c.slot + 1, 0) else c)
    else if v.size + c.offset > 32 then Place(c.slot + 1, 0)
    else c
  }

  function After(c: Place, v: Variable): Place {
    if v.newSlot then Place(Start(c, v).slot + Ceil32(v.size), Start(c, v).offset)
    else Place(Start(c, v).slot, Start(c, v).offset + v.size)
  }

  /** The cursor after placing the first n of vars, none of which is fixed. */
  function Cursor(vars: seq<Variable>, n: nat): Place
    requires n <= |vars|
  {
    if n == 0 then Place(0, 0) else After(Cursor(vars, n - 1), vars[n - 1])
  }

  function PlaceAt(vars: seq<Variable>, i: nat): Place
    requires i < |vars|
  {
    Start(Cursor(vars, i), vars[i])
  }

  /** Those of the first n of vars that occupy storage. */
  function Stored(vars: seq<Variable>, n: nat): seq<Variable>
    requires n <= |vars|
  {
    if n == 0 then [] else
    if vars[n - 1].fixed then Stored(vars, n - 1) else Stored(vars, n - 1) + [vars[n - 1]]
  }

  /** The dictionary entry of a contract, name to place, after the first n of vars. */
  function Dictionary(vars: seq<Variable>, n: nat): map<string, Place>
    requires n <= |vars|
  {
    if n == 0 then map[] else Dictionary(vars, n - 1)[vars[n - 1].name := PlaceAt(vars, n - 1)]
  }

  datatype Contract = Contract(name: string, variables: seq<Variable>)

  type Layouts = map<string, map<string, Place>>

  function Entry(c: Contract): map<string, Place> {
    var s := Stored(c.variables, |c.variables|);
    Dictionary(s, |s|)
  }

  function AllLayouts(contracts: seq<Contract>, n: nat, before: Layouts): Layouts
    requires n <= |contracts|
  {
    if n == 0 then before else
    AllLayouts(contracts, n - 1, before)[contracts[n - 1].name := Entry(contracts[n - 1])]
  }

  lemma {:induction false} SamePrefix(xs: seq<Variable>, ys: seq<Variable>, n: nat)
    requires n <= |xs| && n <= |ys| && forall i :: 0 <= i < n ==> xs[i] == ys[i]
    ensures Cursor(xs, n) == Cursor(ys, n) && Dictionary(xs, n) == Dictionary(ys, n) && Stored(xs, n) == Stored(ys, n)
  {
    if n > 0 { SamePrefix(xs, ys, n - 1); }
  }

  /** What one more variable does to the cursor and the dictionary. */
  lemma Snoc(vars: seq<Variable>, v: Variable)
    ensures Cursor(vars + [v], |vars| + 1) == After(Cursor(vars, |vars|), v)
    ensures Dictionary(vars + [v], |vars| + 1) == Dictionary(vars, |vars|)[v.name := Start(Cursor(vars, |vars|), v)]
  {
    SamePrefix(vars, vars + [v], |vars|);
  }

  lemma NothingPlaced(vars: seq<Variable>)
    ensures Stored(vars, 0) == [] && Cursor([], 0) == Place(0, 0) && Dictionary([], 0) == map[]
  {
  }

  lemma StoredNext(vars: seq<Variable>, n: nat)
    requires n < |vars|
    ensures Stored(vars, n + 1) == Stored(vars, n) + if vars[n].fixed then [] else [vars[n]]
  {
  }

  lemma Overwritten(m: Layouts, name: string, d: map<string, Place>, d': map<string, Place>)
    ensures m[name := d][name := d'] == m[name := d']
  {
  }

  class CompilationUnit {
    var contractsDerived: seq<Contract>
    var storageLayouts: Layouts

    constructor (contracts: seq<Contract>)
      ensures contractsDerived == contracts && storageLayouts == map[]
    {
      contractsDerived, storageLayouts := contracts, map[];
    }

    method ComputeStorageLayout()
      modifies this`storageLayouts
      ensures storageLayouts == AllLayouts(contractsDerived, |contractsDerived|, old(storageLayouts))
    {
      for i := 0 to |contractsDerived|
        invariant storageLayouts == AllLayouts(contractsDerived, i, old(storageLayouts))
      {
        LayOut(contractsDerived[i]);
      }
    }

    method LayOut(contract: Contract)
      modifies this`storageLayouts
      ensures storageLayouts == old(storageLayouts)[contract.name := Entry(contract)]
    {
      hide Ceil32, Stored, Cursor, Dictionary;
      var name, vars := contract.name, contract.variables;
      storageLayouts := storageLayouts[name := map[]];
      var slot: nat, offset: nat := 0, 0;
      ghost var stored: seq<Variable> := [];
      NothingPlaced(vars);
      for j := 0 to |vars|
        invariant stored == Stored(vars, j)
        invariant Cursor(stored, |stored|) == Place(slot, offset)
        invariant storageLayouts == old(storageLayouts)[name := Dictionary(stored, |stored|)]
      {
        var v := vars[j];
        StoredNext(vars, j);
        if v.fixed {
          continue;
        }
        if v.newSlot {
          if offset > 0 {
            slot, offset := slot + 1, 0;
          }
        } else if v.size + offset > 32 {
          slot, offset := slot + 1, 0;
        }
        var entry := storageLayouts[name][v.name := Place(slot, offset)];
        Overwritten(old(storageLayouts), name, storageLayouts[name], entry);
        storageLayouts := storageLayouts[name := entry];
        Snoc(stored, v);
        stored := stored + [v];
        if v.newSlot {
          slot := slot + Ceil32(v.size);
        } else {
          offset := offset + v.size;
        }
      }
    }
  }

  // ----- layouts as byte positions -----

  function Byte(p: Place): nat { 32 * p.slot + p.offset }

  /** A layout obeying the rules: declaration order, no packed variable straddles a slot,
      every new-slot variable starts a slot. */
  ghost predicate Aligned(v: Variable, b: nat) {
    if v.newSlot then b % 32 == 0 else b % 32 + v.size <= 32
  }

  /** A variable that starts at byte later leaves v at byte b alone: it starts behind v, and in no
      slot that a new-slot variable occupies. */
  predicate Clear(v: Variable, b: nat, later: nat) {
    b + v.size <= later && (v.newSlot ==> b + v.size <= 32 * (later / 32))
  }

  ghost predicate Legal(vars: seq<Variable>, bs: seq<nat>) {
    && |bs| == |vars|
    && (forall i :: 0 <= i < |vars| ==> Aligned(vars[i], bs[i]))
    && (forall i, j :: 0 <= i < j < |vars| ==> Clear(vars[i], bs[i], bs[j]))
  }

  /** Where the cursor stands after v at byte b. */
  function End(v: Variable, b: nat): nat {
    if v.newSlot then b + 32 * Ceil32(v.size) else b + v.size
  }

  /** That is the first position at which another variable leaves v alone. */
  lemma EndIsLeast(v: Variable, b: nat, later: nat)
    requires Aligned(v, b)
    ensures Clear(v, b, later) <==> End(v, b) <= later
  {
  }

  /** The byte positions of the computed layout. */
  function Bytes(vars: seq<Variable>): (bs: seq<nat>)
    ensures |bs| == |vars| && forall i :: 0 <= i < |vars| ==> bs[i] == Byte(PlaceAt(vars, i))
  {
    seq(|vars|, i requires 0 <= i < |vars| => Byte(PlaceAt(vars, i)))
  }

  lemma {:induction false} CursorInSlot(vars: seq<Variable>, i: nat)
    requires Packable(vars) && i <= |vars|
    ensures Cursor(vars, i).offset <= 32
  {
    if i > 0 {
      CursorInSlot(vars, i - 1);
      assert vars[i - 1] in vars;
    }
  }

  lemma PrefixStep(vars: seq<Variable>, i: nat)
    requires Packable(vars) && i < |vars|
    ensures Byte(Cursor(vars, i)) <= Byte(PlaceAt(vars, i))
    ensures Byte(Cursor(vars, i + 1)) == End(vars[i], Byte(PlaceAt(vars, i)))
  {
    CursorInSlot(vars, i);
  }

  lemma {:induction false} CursorAdvances(vars: seq<Variable>, i: nat, j: nat)
    requires Packable(vars) && i <= j <= |vars|
    ensures Byte(Cursor(vars, i)) <= Byte(Cursor(vars, j))
  {
    if i < j {
      CursorAdvances(vars, i, j - 1);
      PrefixStep(vars, j - 1);
    }
  }

  /** A packed variable stays inside its slot and a new-slot variable starts one. */
  lemma PlacedInSlot(vars: seq<Variable>, i: nat)
    requires Packable(vars) && i < |vars|
    ensures if vars[i].newSlot then PlaceAt(vars, i).offset == 0 else PlaceAt(vars, i).offset + vars[i].size <= 32
    ensures Aligned(vars[i], Byte(PlaceAt(vars, i)))
  {
    CursorInSlot(vars, i);
    assert vars[i] in vars;
  }

  lemma PlacedInOrder(vars: seq<Variable>, i: nat, j: nat)
    requires Packable(vars) && i < j < |vars|
    ensures Clear(vars[i], Byte(PlaceAt(vars, i)), Byte(PlaceAt(vars, j)))
  {
    PrefixStep(vars, i);
    CursorAdvances(vars, i + 1, j);
    PrefixStep(vars, j);
    PlacedInSlot(vars, i);
    EndIsLeast(vars[i], Byte(PlaceAt(vars, i)), Byte(PlaceAt(vars, j)));
  }

  /** The computed layout obeys the rules. */
  lemma LayoutIsLegal(vars: seq<Variable>)
    requires Packable(vars)
    ensures Legal(vars, Bytes(vars))
  {
    forall i | 0 <= i < |vars| ensures Aligned(vars[i], Byte(PlaceAt(vars, i))) { PlacedInSlot(vars, i); }
    forall i, j | 0 <= i < j < |vars| ensures Clear(vars[i], Byte(PlaceAt(vars, i)), Byte(PlaceAt(vars, j))) {
      PlacedInOrder(vars, i, j);
    }
  }

  /** No legal position at or after the cursor comes before the one chosen. */
  lemma StartIsLeast(c: Place, v: Variable, b: nat)
    requires c.offset <= 32 && Byte(c) <= b && Aligned(v, b)
    ensures Byte(Start(c, v)) <= b
  {
  }

  lemma LegalAt(vars: seq<Variable>, bs: seq<nat>, i: nat)
    requires Legal(vars, bs) && i < |vars|
    ensures Aligned(vars[i], bs[i]) && (i > 0 ==> End(vars[i - 1], bs[i - 1]) <= bs[i])
  {
    if i > 0 { EndIsLeast(vars[i - 1], bs[i - 1], bs[i]); }
  }

  /** One step: if the cursor has not passed b, the variable does not start after b. */
  lemma StepIsLeast(vars: seq<Variable>, i: nat, b: nat)
    requires Packable(vars) && i < |vars| && Byte(Cursor(vars, i)) <= b && Aligned(vars[i], b)
    ensures Byte(PlaceAt(vars, i)) <= b && Byte(Cursor(vars, i + 1)) <= End(vars[i], b)
  {
    CursorInSlot(vars, i);
    StartIsLeast(Cursor(vars, i), vars[i], b);
    PrefixStep(vars, i);
  }

  lemma {:induction false} LeftmostAt(vars: seq<Variable>, bs: seq<nat>, i: nat)
    requires Packable(vars) && Legal(vars, bs) && i < |vars|
    ensures Byte(PlaceAt(vars, i)) <= bs[i]
    ensures Byte(Cursor(vars, i + 1)) <= End(vars[i], bs[i])
  {
    if i > 0 { LeftmostAt(vars, bs, i - 1); }
    LegalAt(vars, bs, i);
    StepIsLeast(vars, i, bs[i]);
  }

  /** Every variable starts no later than in any legal layout, so k slots that hold the variables of
      a legal layout hold those of this one. */
  lemma LayoutIsLeftmost(vars: seq<Variable>, bs: seq<nat>)
    requires Packable(vars) && Legal(vars, bs)
    ensures forall i :: 0 <= i < |vars| ==> Bytes(vars)[i] <= bs[i]
    ensures forall k: nat :: HeldIn(vars, bs, k) ==> HeldIn(vars, Bytes(vars), k)
  {
    forall i | 0 <= i < |vars| ensures Byte(PlaceAt(vars, i)) <= bs[i] { LeftmostAt(vars, bs, i); }
  }

  /** The first k slots hold every variable. */
  ghost predicate HeldIn(vars: seq<Variable>, bs: seq<nat>, k: nat)
    requires |bs| == |vars|
  {
    forall i :: 0 <= i < |vars| ==> bs[i] + vars[i].size <= 32 * k
  }

  // ----- which variables are laid out -----

  /** Every variable that is not fixed is stored, in its turn. */
  lemma {:induction false} StoredAt(vars: seq<Variable>, n: nat, i: nat)
    requires i < n <= |vars| && !vars[i].fixed
    ensures |Stored(vars, i)| < |Stored(vars, n)| && Stored(vars, n)[|Stored(vars, i)|] == vars[i]
  {
    if i < n - 1 { StoredAt(vars, n - 1, i); }
  }

  /** And nothing else is. */
  lemma {:induction false} StoredFrom(vars: seq<Variable>, n: nat, p: nat) returns (i: nat)
    requires n <= |vars| && p < |Stored(vars, n)|
    ensures i < n && !vars[i].fixed && p == |Stored(vars, i)| && Stored(vars, n)[p] == vars[i]
  {
    if p < |Stored(vars, n - 1)| { i := StoredFrom(vars, n - 1, p); } else { i := n - 1; }
  }

  /** Every derived contract gets an entry, that of the last contract of its name. */
  lemma {:induction false} EveryContractIsLaidOut(cs: seq<Contract>, n: nat, i: nat, before: Layouts)
    requires i < n <= |cs| && forall j :: i < j < n ==> cs[j].name != cs[i].name
    ensures cs[i].name in AllLayouts(cs, n, before) && AllLayouts(cs, n, before)[cs[i].name] == Entry(cs[i])
  {
    hide Entry;
    if i < n - 1 { EveryContractIsLaidOut(cs, n - 1, i, before); }
  }

  /** No other entry changes. */
  lemma {:induction false} OtherEntriesStay(cs: seq<Contract>, n: nat, before: Layouts, name: string)
    requires n <= |cs| && forall i :: 0 <= i < n ==> cs[i].name != name
    ensures name in AllLayouts(cs, n, before) <==> name in before
    ensures name in before ==> AllLayouts(cs, n, before)[name] == before[name]
  {
    hide Entry;
    if n > 0 { OtherEntriesStay(cs, n - 1, before, name); }
  }

  // ----- the dictionary -----

  ghost predicate DistinctNames(vars: seq<Variable>) {
    forall i, j :: 0 <= i < j < |vars| ==> vars[i].name != vars[j].name
  }

  lemma {:induction false} DictionaryHolds(vars: seq<Variable>, n: nat, i: nat)
    requires DistinctNames(vars) && i < n <= |vars|
    ensures vars[i].name in Dictionary(vars, n) && Dictionary(vars, n)[vars[i].name] == PlaceAt(vars, i)
  {
    if i < n - 1 { DictionaryHolds(vars, n - 1, i); }
  }

  /** In a contract's entry two stored variables never share a byte, and what is recorded for
      a packed variable stays inside its slot. */
  lemma RecordedPlacesAreDisjoint(c: Contract, i: nat, j: nat)
    requires var s := Stored(c.variables, |c.variables|); Packable(s) && DistinctNames(s) && i < j < |s|
    ensures var (s, d) := (Stored(c.variables, |c.variables|), Entry(c));
            && s[i].name in d && s[j].name in d
            && Byte(d[s[i].name]) + s[i].size <= Byte(d[s[j].name])
            && (!s[i].newSlot ==> d[s[i].name].offset + s[i].size <= 32)
  {
    var s := Stored(c.variables, |c.variables|);
    DictionaryHolds(s, |s|, i);
    DictionaryHolds(s, |s|, j);
    PlacedInOrder(s, i, j);
    PlacedInSlot(s, i);
  }

  // ----- stability -----

  /** Only sizes and new-slot flags matter, and only those of earlier variables. */
  lemma {:induction false} SharedPrefixSamePlaces(xs: seq<Variable>, ys: seq<Variable>, n: nat)
    requires n <= |xs| && n <= |ys|
    requires forall i :: 0 <= i < n ==> xs[i].size == ys[i].size && xs[i].newSlot == ys[i].newSlot
    ensures Cursor(xs, n) == Cursor(ys, n)
    ensures forall i :: 0 <= i < n ==> PlaceAt(xs, i) == PlaceAt(ys, i)
  {
    if n > 0 { SharedPrefixSamePlaces(xs, ys, n - 1); }
  }

  /** Appending variables moves none of the earlier ones. */
  lemma AppendingMovesNothing(xs: seq<Variable>, ys: seq<Variable>, i: nat)
    requires i < |xs|
    ensures PlaceAt(xs + ys, i) == PlaceAt(xs, i)
  {
    SharedPrefixSamePlaces(xs, xs + ys, |xs|);
  }

  function Shifted(i: nat, k: nat): nat { if i < k then i else i + 1 }

  function Without<T>(ts: seq<T>, k: nat): (r: seq<T>)
    requires k < |ts|
    ensures |r| == |ts| - 1 && forall i :: 0 <= i < |r| ==> r[i] == ts[Shifted(i, k)]
  {
    ts[..k] + ts[k + 1..]
  }

  lemma WithoutIsLegal(vars: seq<Variable>, k: nat)
    requires Packable(vars) && k < |vars|
    ensures Packable(Without(vars, k)) && Legal(Without(vars, k), Without(Bytes(vars), k))
  {
    LayoutIsLegal(vars);
  }

  /** Inserting a variable at index k moves no other variable to a lower byte position. */
  lemma InsertionMovesNothingDown(vars: seq<Variable>, k: nat, i: nat)
    requires Packable(vars) && k < |vars| && i < |vars| - 1
    ensures Byte(PlaceAt(Without(vars, k), i)) <= Byte(PlaceAt(vars, Shifted(i, k)))
  {
    WithoutIsLegal(vars, k);
    LeftmostAt(Without(vars, k), Without(Bytes(vars), k), i);
  }

  /** Constants and immutables take no part. */
  lemma {:induction false} FixedVariablesAreIgnored(xs: seq<Variable>, v: Variable, ys: seq<Variable>, n: nat)
    requires v.fixed && n <= |ys|
    ensures Stored(xs + [v] + ys, |xs| + 1 + n) == Stored(xs + ys, |xs| + n)
  {
    if n == 0 {
      SamePrefix(xs + [v] + ys, xs + ys, |xs|);
    } else {
      FixedVariablesAreIgnored(xs, v, ys, n - 1);
    }
  }

  /** `mapping(..) m; uint256 x;`: the mapping takes slot 0 and x slot 1. */
  lemma WordAfterMapping(m: Variable, x: Variable)
    requires m.newSlot && m.size == 32 && !x.newSlot && x.size == 32
    ensures PlaceAt([m, x], 0) == Place(0, 0) && PlaceAt([m, x], 1) == Place(1, 0)
  {
    assert Cursor([m, x], 0) == Place(0, 0);
  }
}
