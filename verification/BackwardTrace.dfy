/** Tracing a storage key backwards through EVM code. */
module BackwardTrace {
  import opened Collections
  import opened EvmCode

  datatype Word = ConcreteWord(value: nat) | HashedWord

  /** The instruction before pc, or -1. */
  function Prev(code: Code, pc: int): (p: int)
    ensures p < pc || p == -1
    ensures p >= 0 ==> p in code && forall q :: p < q < pc ==> q !in code
    ensures p < 0 ==> p == -1 && forall q :: 0 <= q < pc ==> q !in code
    decreases pc
  {
    if pc <= 0 then -1 else if pc - 1 in code then pc - 1 else Prev(code, pc - 1)
  }

  /** The stack index after stepping back over i. DUP overwrites the index. */
  function Shift(i: Inst, k: int): int {
    var base :=
      if i.name == DUP then i.pops + 1
      else if i.name == SWAP && k == 1 then i.pops
      else if i.name == SWAP && k == i.pops then 1
      else k;
    base + i.pops - i.pushes
  }

  /** What the tracer returns on the spot at i. */
  function Answer(i: Inst, k: int): Option<Word> {
    if i.name == PUSH && k == 1 then Some(ConcreteWord(i.operand))
    else if i.name == SHA3 && k == 1 then Some(HashedWord)
    else None
  }

  datatype Outcome = Found(word: Word) | Exhausted | Crossing(index: int, pc: int)

  /** The trace up to the first answer, JUMPDEST or end of code. */
  function Walk(code: Code, k: int, pc: int): Outcome
    requires pc in code
    decreases pc
  {
    var i := code[pc];
    if Answer(i, k).Some? then Found(Answer(i, k).value)
    else if i.name == JUMPDEST then Crossing(k, pc)
    else if Prev(code, pc) < 0 then Exhausted
    else Walk(code, Shift(i, k), Prev(code, pc))
  }

  /** Down to a PUSH or SHA3 that leaves the traced element: at DUP the index is 1 or the position
      of the duplicated element; at any other instruction except SWAP it lies below what the
      instruction pushes. */
  predicate Disciplined(code: Code, k: int, pc: int)
    requires pc in code
    decreases pc
  {
    var i := code[pc];
    || (k == 1 && (i.name == PUSH || i.name == SHA3))
    || (&& i.name != JUMPDEST
        && (i.name == DUP ==> k == 1 || k == i.pops + 1)
        && (i.name != DUP && i.name != SWAP ==> k > i.pushes)
        && (Prev(code, pc) >= 0 ==> Disciplined(code, Shift(i, k), Prev(code, pc))))
  }

  /** The walk from (k, pc) comes to (k', pc'). */
  ghost predicate OnWalk(code: Code, k: int, pc: int, k': int, pc': int)
    requires pc in code
    decreases pc
  {
    || (k == k' && pc == pc')
    || (&& Answer(code[pc], k).None? && code[pc].name != JUMPDEST && Prev(code, pc) >= 0
        && OnWalk(code, Shift(code[pc], k), Prev(code, pc), k', pc'))
  }

  /** Along a disciplined walk the index stays positive. */
  lemma {:induction false} IndexStaysPositive(code: Code, k: int, pc: int, k': int, pc': int)
    requires CodeOk(code) && pc in code && Disciplined(code, k, pc) && k >= 1 && OnWalk(code, k, pc, k', pc')
    ensures k' >= 1
    decreases pc
  {
    if !(k == k' && pc == pc') {
      IndexStaysPositive(code, Shift(code[pc], k), Prev(code, pc), k', pc');
    }
  }

  // ----- agreement with forward execution -----

  /** Without a JUMPDEST, the state before a state of a run is at the previous instruction. */
  lemma FallsThrough(code: Code, s: State, t: State)
    requires CodeOk(code) && Step(code, s, t) && code[t.pc].name != JUMPDEST
    ensures Prev(code, t.pc) == s.pc
  {
    assert s.pc + code[s.pc].size == t.pc;
  }

  // ----- what lies outside the discipline -----

  /** i stands at pc and the next instruction at next. */
  ghost predicate At(code: Code, pc: nat, i: Inst, next: nat) {
    && pc in code && next in code && pc < next && code[pc] == i && i.size == next - pc
    && forall q :: pc < q < next ==> q !in code
  }

  lemma WalkBack(code: Code, k: int, pc: nat, i: Inst, next: nat)
    requires At(code, pc, i, next) && Answer(code[next], k).None? && code[next].name != JUMPDEST
    ensures Walk(code, k, next) == Walk(code, Shift(code[next], k), pc)
  {
    assert Prev(code, next) == pc;
  }

  /** PUSH v, PUSH w, DUP1, POP twice, SLOAD: the key is v, but the index is overwritten at
      DUP1 and the trace returns w. */
  lemma DuplicateOverwritesTheIndex(code: Code, v: nat, w: nat, a: nat, b: nat, c: nat, d: nat)
    requires 0 < a < b < c < d
    requires At(code, 0, Inst(PUSH, 0, 1, v, a), a) && At(code, a, Inst(PUSH, 0, 1, w, b - a), b)
    requires At(code, b, Inst(DUP, 1, 2, 0, c - b), c) && At(code, c, Inst(OTHER, 2, 0, 0, d - c), d)
    requires code[d] == Inst(SLOAD, 1, 1, 0, 1)
    ensures Walk(code, 1, d) == Found(ConcreteWord(w))
    ensures Run(code, [State(0, []), State(a, [v]), State(b, [w, v]), State(c, [w, w, v]), State(d, [v])])
  {
    WalkBack(code, 1, c, code[c], d);
    WalkBack(code, 1, b, code[b], c);
    WalkBack(code, 3, a, code[a], b);
    assert [w, v] == [w] + [v] && [w, w, v] == [w] + [w, v];
    assert Step(code, State(0, []), State(a, [v])) && Step(code, State(a, [v]), State(b, [w, v]));
    assert Step(code, State(b, [w, v]), State(c, [w, w, v])) && Step(code, State(c, [w, w, v]), State(d, [v]));
  }

  /** PUSH v, PUSH w, ADD, SLOAD: the trace walks through ADD and returns v, whatever ADD
      left on the stack. */
  lemma OpaqueResultIsWalkedThrough(code: Code, v: nat, w: nat, sum: nat, a: nat, b: nat, c: nat)
    requires 0 < a < b < c
    requires At(code, 0, Inst(PUSH, 0, 1, v, a), a) && At(code, a, Inst(PUSH, 0, 1, w, b - a), b)
    requires At(code, b, Inst(OTHER, 2, 1, 0, c - b), c) && code[c] == Inst(SLOAD, 1, 1, 0, 1)
    ensures Walk(code, 1, c) == Found(ConcreteWord(v))
    ensures Run(code, [State(0, []), State(a, [v]), State(b, [w, v]), State(c, [sum])])
  {
    WalkBack(code, 1, b, code[b], c);
    WalkBack(code, 1, a, code[a], b);
    WalkBack(code, 2, 0, code[0], a);
    assert [w, v] == [w] + [v];
    assert Step(code, State(0, []), State(a, [v])) && Step(code, State(a, [v]), State(b, [w, v]));
    assert Step(code, State(b, [w, v]), State(c, [sum]));
  }

  // ----- derivations across JUMPDESTs -----

  type BackwardCfg = map<nat, set<nat>>

  datatype Place = Place(index: int, pc: int)

  /** The tracer goes from a to b: to the previous instruction, or from a JUMPDEST to the
      start of a block that leads to it. */
  ghost predicate Link(code: Code, cfg: BackwardCfg, a: Place, b: Place) {
    && a.pc in code && b.pc in code && Answer(code[a.pc], a.index).None?
    && (|| (b.pc == Prev(code, a.pc) && b.index == Shift(code[a.pc], a.index))
        || (code[a.pc].name == JUMPDEST && a.pc in cfg && b.pc in cfg[a.pc] && b.index == a.index))
  }

  ghost predicate Path(code: Code, cfg: BackwardCfg, ps: seq<Place>) {
    forall i :: 0 <= i < |ps| - 1 ==> Link(code, cfg, ps[i], ps[i + 1])
  }

  /** w is the answer at the end of a path from (k, pc). */
  ghost predicate Leads(code: Code, cfg: BackwardCfg, ps: seq<Place>, k: int, pc: int, w: Word) {
    && |ps| > 0 && ps[0] == Place(k, pc) && Path(code, cfg, ps)
    && ps[|ps| - 1].pc in code && Answer(code[ps[|ps| - 1].pc], ps[|ps| - 1].index) == Some(w)
  }

  ghost predicate Derivable(code: Code, cfg: BackwardCfg, k: int, pc: int, w: Word) {
    exists ps :: Leads(code, cfg, ps, k, pc, w)
  }

  lemma DerivableBack(code: Code, cfg: BackwardCfg, k: int, pc: int, k': int, pc': int, w: Word)
    requires Link(code, cfg, Place(k, pc), Place(k', pc')) && Derivable(code, cfg, k', pc', w)
    ensures Derivable(code, cfg, k, pc, w)
  {
    var ps :| Leads(code, cfg, ps, k', pc', w);
    assert Leads(code, cfg, [Place(k, pc)] + ps, k, pc, w);
  }

  lemma DerivableHere(code: Code, cfg: BackwardCfg, k: int, pc: int)
    requires pc in code && Answer(code[pc], k).Some?
    ensures Derivable(code, cfg, k, pc, Answer(code[pc], k).value)
  {
    assert Leads(code, cfg, [Place(k, pc)], k, pc, Answer(code[pc], k).value);
  }

  /** Whatever holds further down the trace, at (k', pc'), holds at (k, pc), too. */
  ghost predicate Covers(code: Code, cfg: BackwardCfg, k: int, pc: int, k': int, pc': int, seen: set<nat>)
    requires pc in code && (pc' >= 0 ==> pc' in code)
  {
    && (forall w :: pc' >= 0 && Derivable(code, cfg, k', pc', w) ==> Derivable(code, cfg, k, pc, w))
    && (forall s :: seen <= s && (pc' >= 0 ==> Barren(code, cfg, k', pc', s)) ==> Barren(code, cfg, k, pc, s))
  }

  lemma CoversStep(code: Code, cfg: BackwardCfg, k: int, pc: int, k': int, pc': int, seen: set<nat>, seen': set<nat>)
    requires pc in code && pc' >= 0 && pc' in code && Covers(code, cfg, k, pc, k', pc', seen) && seen <= seen'
    requires Answer(code[pc'], k').None? && (code[pc'].name == JUMPDEST ==> Sources(cfg, pc') <= seen')
    ensures Covers(code, cfg, k, pc, Shift(code[pc'], k'), Prev(code, pc'), seen')
  {
    var i, p := Shift(code[pc'], k'), Prev(code, pc');
    forall w | p >= 0 && Derivable(code, cfg, i, p, w) ensures Derivable(code, cfg, k, pc, w) {
      DerivableBack(code, cfg, k', pc', i, p, w);
    }
    forall s | seen' <= s && (p >= 0 ==> Barren(code, cfg, i, p, s)) ensures Barren(code, cfg, k, pc, s) {
      assert Barren(code, cfg, k', pc', s);
    }
  }

  /** Nothing was missed from (k, pc): no instruction down to the end of the code, or down to
      a JUMPDEST without sources, answers, and every source of a JUMPDEST met was visited. */
  ghost predicate Barren(code: Code, cfg: BackwardCfg, k: int, pc: int, seen: set<nat>)
    requires pc in code
    decreases pc
  {
    var i := code[pc];
    && Answer(i, k).None?
    && (|| (i.name == JUMPDEST && Sources(cfg, pc) == {})
        || (&& (i.name == JUMPDEST ==> Sources(cfg, pc) <= seen)
            && (Prev(code, pc) >= 0 ==> Barren(code, cfg, Shift(i, k), Prev(code, pc), seen))))
  }

  lemma BarrenHere(code: Code, cfg: BackwardCfg, k: int, pc: int, seen: set<nat>)
    requires pc in code && Answer(code[pc], k).None? && code[pc].name == JUMPDEST && Sources(cfg, pc) == {}
    ensures Barren(code, cfg, k, pc, seen)
  {
  }

  ghost predicate AllBarren(code: Code, cfg: BackwardCfg, pcs: set<nat>, seen: set<nat>)
    requires pcs <= code.Keys
  {
    forall pc :: pc in pcs ==> exists k :: Barren(code, cfg, k, pc, seen)
  }

  lemma {:induction false} BarrenIn(code: Code, cfg: BackwardCfg, k: int, pc: int, seen: set<nat>, seen': set<nat>)
    requires pc in code && seen <= seen' && Barren(code, cfg, k, pc, seen)
    ensures Barren(code, cfg, k, pc, seen')
    decreases pc
  {
    if !(code[pc].name == JUMPDEST && Sources(cfg, pc) == {}) && Prev(code, pc) >= 0 {
      BarrenIn(code, cfg, Shift(code[pc], k), Prev(code, pc), seen, seen');
    }
  }

  lemma AllBarrenIn(code: Code, cfg: BackwardCfg, pcs: set<nat>, seen: set<nat>, seen': set<nat>)
    requires pcs <= code.Keys && seen <= seen' && AllBarren(code, cfg, pcs, seen)
    ensures AllBarren(code, cfg, pcs, seen')
  {
    forall pc | pc in pcs ensures exists k :: Barren(code, cfg, k, pc, seen') {
      var k :| Barren(code, cfg, k, pc, seen);
      BarrenIn(code, cfg, k, pc, seen, seen');
    }
  }

  lemma MoreBarren(code: Code, cfg: BackwardCfg, base: set<nat>, seen: set<nat>, seen': set<nat>)
    requires base <= seen <= seen' <= code.Keys
    requires AllBarren(code, cfg, seen - base, seen) && AllBarren(code, cfg, seen' - seen, seen')
    ensures AllBarren(code, cfg, seen' - base, seen')
  {
    AllBarrenIn(code, cfg, seen - base, seen, seen');
    assert seen' - base == (seen - base) + (seen' - seen);
  }

  /** The slot that the access at pc reaches without crossing a JUMPDEST. */
  function DirectSlot(code: Code, pc: nat): Option<nat>
    requires pc in code
  {
    match Walk(code, 1, pc)
    case Found(ConcreteWord(w)) => Some(w)
    case _ => None
  }

  /** Every slot is derivable from some access of this kind. */
  ghost predicate Accessed(code: Code, cfg: BackwardCfg, name: Name, slots: set<nat>) {
    forall w :: w in slots ==>
      exists pc :: pc in code && code[pc].name == name && Derivable(code, cfg, 1, pc, ConcreteWord(w))
  }

  /** Nothing is found from (k, pc): no instruction on the way answers, nor any from the block
      starts that the JUMPDESTs met lead back to, each traced with one index. */
  ghost predicate Dead(code: Code, cfg: BackwardCfg, k: int, pc: int) {
    exists seen :: pc in seen && seen <= code.Keys && Barren(code, cfg, k, pc, seen) && AllBarren(code, cfg, seen, seen)
  }

  /** If the access at pc can reach neither a hash nor nothing at all, slots has one of the slots
      it can reach. */
  ghost predicate Reported(code: Code, cfg: BackwardCfg, pc: nat, slots: set<nat>) {
    || Derivable(code, cfg, 1, pc, HashedWord) || Dead(code, cfg, 1, pc)
    || exists w :: w in slots && Derivable(code, cfg, 1, pc, ConcreteWord(w))
  }

  /** Whatever the accesses of this kind at pcs reach directly is in slots, and of what they reach
      across JUMPDESTs one slot each. */
  ghost predicate Covered(code: Code, cfg: BackwardCfg, name: Name, pcs: set<nat>, slots: set<nat>)
    requires pcs <= code.Keys
  {
    forall pc :: pc in pcs && code[pc].name == name ==>
      && (DirectSlot(code, pc).Some? ==> DirectSlot(code, pc).value in slots)
      && Reported(code, cfg, pc, slots)
  }

  /** What tracing the access at pc may say. */
  ghost predicate Traced(code: Code, cfg: BackwardCfg, pc: nat, slot: Option<nat>)
    requires pc in code
  {
    && (slot.Some? ==> Derivable(code, cfg, 1, pc, ConcreteWord(slot.value)))
    && (slot.None? ==> Derivable(code, cfg, 1, pc, HashedWord) || Dead(code, cfg, 1, pc))
    && (DirectSlot(code, pc).Some? ==> slot == DirectSlot(code, pc))
  }

  /** The slots recorded for one kind of access once the access at pc has been traced. */
  function Recorded(code: Code, name: Name, slots: set<nat>, pc: nat, slot: Option<nat>): set<nat>
    requires pc in code
  {
    if code[pc].name == name && slot.Some? then slots + {slot.value} else slots
  }

  lemma RecordedIsExact(code: Code, cfg: BackwardCfg, name: Name, pcs: set<nat>, slots: set<nat>,
                        pc: nat, slot: Option<nat>)
    requires pc in code && pcs <= code.Keys && Accessed(code, cfg, name, slots)
    requires Covered(code, cfg, name, pcs, slots) && (code[pc].name == name ==> Traced(code, cfg, pc, slot))
    ensures Accessed(code, cfg, name, Recorded(code, name, slots, pc, slot))
    ensures Covered(code, cfg, name, pcs + {pc}, Recorded(code, name, slots, pc, slot))
  {
    hide Derivable, Dead, Walk, DirectSlot;
    var after := Recorded(code, name, slots, pc, slot);
    forall p | p in pcs + {pc} && code[p].name == name ensures Reported(code, cfg, p, after) {
      if p in pcs { assert Reported(code, cfg, p, slots); }
    }
  }

  lemma NothingFound(code: Code, cfg: BackwardCfg, k: int, pc: int, seen: set<nat>)
    requires pc in seen && seen <= code.Keys && Barren(code, cfg, k, pc, seen) && AllBarren(code, cfg, seen, seen)
    ensures Dead(code, cfg, k, pc)
  {
  }

  datatype Block = Block(start: nat, outgoing: seq<nat>)

  ghost predicate Edge(blocks: seq<Block>, from: nat, to: nat) {
    exists i :: 0 <= i < |blocks| && blocks[i].start == from && to in blocks[i].outgoing
  }

  function Sources(cfg: BackwardCfg, to: nat): set<nat> {
    if to in cfg then cfg[to] else {}
  }

  lemma EdgeSnoc(blocks: seq<Block>, b: Block, from: nat, to: nat)
    ensures Edge(blocks + [b], from, to) <==> Edge(blocks, from, to) || (b.start == from && to in b.outgoing)
  {
    var all := blocks + [b];
    assert all[|blocks|] == b && forall i :: 0 <= i < |blocks| ==> all[i] == blocks[i];
  }

  class BackwardAnalyzer {
    const instructions: Code
    var cfgBack: BackwardCfg
    var visited: set<nat>
    ghost var traces: nat  // calls that got past the visited test

    /** Reverses the edges between basic blocks. */
    constructor (code: Code, blocks: seq<Block>)
      ensures instructions == code
      ensures forall from, to :: from in Sources(cfgBack, to) <==> Edge(blocks, from, to)
    {
      instructions := code;
      visited, traces := {}, 0;
      var cfg: BackwardCfg := map[];
      for i := 0 to |blocks|
        invariant forall from, to :: from in Sources(cfg, to) <==> Edge(blocks[..i], from, to)
      {
        var b := blocks[i];
        ghost var before := cfg;
        for j := 0 to |b.outgoing|
          invariant forall from, to :: from in Sources(cfg, to) <==>
                      from in Sources(before, to) || (from == b.start && to in b.outgoing[..j])
        {
          var to := b.outgoing[j];
          cfg := cfg[to := Sources(cfg, to) + {b.start}];
          assert b.outgoing[..j + 1] == b.outgoing[..j] + [to];
        }
        assert blocks[..i + 1] == blocks[..i] + [b] && b.outgoing[..|b.outgoing|] == b.outgoing;
        forall from, to ensures from in Sources(cfg, to) <==> Edge(blocks[..i + 1], from, to) {
          EdgeSnoc(blocks[..i], b, from, to);
        }
      }
      assert blocks[..|blocks|] == blocks;
      cfgBack := cfg;
    }

    ghost predicate Valid()
      reads this
    {
      forall to, from :: to in cfgBack && from in cfgBack[to] ==> from in instructions
    }

    /** Halts on every CFG; at most one call per instruction gets past the visited test.
        Any answer is derivable, without a JUMPDEST on the way it is Walk's, and without an
        answer nothing was missed from any of the starts visited. */
    method TraceOpInput(stackIndex: int, start: nat) returns (res: Option<Word>)
      requires Valid() && start in instructions && visited <= instructions.Keys
      modifies this`visited, this`traces
      ensures old(visited) <= visited <= instructions.Keys
      ensures traces - old(traces) == |visited| - |old(visited)|
      ensures start in visited
      ensures start in old(visited) ==> res == None
      ensures res.Some? ==> Derivable(instructions, cfgBack, stackIndex, start, res.value)
      ensures res.None? && start !in old(visited) ==> Barren(instructions, cfgBack, stackIndex, start, visited)
      ensures res.None? ==> AllBarren(instructions, cfgBack, visited - old(visited), visited)
      ensures start !in old(visited) ==>
                match Walk(instructions, stackIndex, start)
                case Found(w) => res == Some(w)
                case Exhausted => res == None
                case Crossing(_, _) => true
      decreases instructions.Keys - visited, 0
    {
      hide Derivable, Barren, Prev;
      if start in visited { return None; }
      visited, traces := visited + {start}, traces + 1;
      ghost var base := visited;
      var k, pc: int := stackIndex, start;
      ghost var crossed := false;
      while pc >= 0
        invariant pc >= 0 ==> pc in instructions
        invariant old(visited) + {start} == base <= visited <= instructions.Keys
        invariant traces - old(traces) == |visited| - |old(visited)|
        invariant Covers(instructions, cfgBack, stackIndex, start, k, pc, visited)
        invariant AllBarren(instructions, cfgBack, visited - base, visited)
        invariant crossed ==> Walk(instructions, stackIndex, start).Crossing?
        invariant !crossed && pc >= 0 ==> Walk(instructions, stackIndex, start) == Walk(instructions, k, pc)
        invariant !crossed && pc < 0 ==> Walk(instructions, stackIndex, start) == Exhausted
        decreases pc
      {
        var i := instructions[pc];
        if Answer(i, k).Some? {
          DerivableHere(instructions, cfgBack, k, pc);
          return Answer(i, k);
        }
        ghost var before := visited;
        if i.name == JUMPDEST {
          crossed := true;
          if Sources(cfgBack, pc) == {} {
            BarrenHere(instructions, cfgBack, k, pc, visited);
            break;
          }
          res := TraceIncoming(k, pc);
          if res.Some? { return; }
          MoreBarren(instructions, cfgBack, base, before, visited);
        }
        CoversStep(instructions, cfgBack, stackIndex, start, k, pc, before, visited);
        k := Shift(i, k);
        pc := PreviousPc(pc);
      }
      assert Barren(instructions, cfgBack, stackIndex, start, visited);
      assert visited - old(visited) <= (visited - base) + {start};
      return None;
    }

    /** The first answer from the blocks that lead to the JUMPDEST at pc. */
    method TraceIncoming(k: int, pc: nat) returns (res: Option<Word>)
      requires Valid() && pc in instructions && visited <= instructions.Keys
      requires instructions[pc].name == JUMPDEST
      modifies this`visited, this`traces
      ensures old(visited) <= visited <= instructions.Keys
      ensures traces - old(traces) == |visited| - |old(visited)|
      ensures res.Some? ==> Derivable(instructions, cfgBack, k, pc, res.value)
      ensures res.None? ==> Sources(cfgBack, pc) <= visited
      ensures res.None? ==> AllBarren(instructions, cfgBack, visited - old(visited), visited)
      decreases instructions.Keys - visited, 1
    {
      res := None;
      var left := Sources(cfgBack, pc);
      while left != {}
        invariant old(visited) <= visited <= instructions.Keys
        invariant left <= Sources(cfgBack, pc) && Sources(cfgBack, pc) - left <= visited
        invariant AllBarren(instructions, cfgBack, visited - old(visited), visited)
        invariant traces - old(traces) == |visited| - |old(visited)|
        decreases |left|
      {
        var from :| from in left;
        left := left - {from};
        ghost var before := visited;
        res := TraceOpInput(k, from);
        if res.Some? {
          DerivableBack(instructions, cfgBack, k, pc, k, from, res.value);
          return;
        }
        MoreBarren(instructions, cfgBack, old(visited), before, visited);
      }
      res := None;
    }

    method PreviousPc(pc: nat) returns (p: int)
      ensures p == Prev(instructions, pc)
    {
      p := pc - 1;
      while p >= 0 && p !in instructions
        invariant -1 <= p < pc
        invariant forall q :: p < q < pc ==> q !in instructions
      {
        p := p - 1;
      }
    }

    /** The slot of the access at pc, and None for an instruction that is not an access. */
    method TraceAccess(pc: nat) returns (slot: Option<nat>)
      requires Valid() && pc in instructions
      modifies this`visited, this`traces
      ensures if instructions[pc].name in {SLOAD, SSTORE} then Traced(instructions, cfgBack, pc, slot) else slot == None
    {
      if instructions[pc].name !in {SLOAD, SSTORE} { return None; }
      hide Derivable, Barren, AllBarren;
      visited := {};
      var word := TraceOpInput(1, pc);
      assert visited - {} == visited;
      if word.None? { NothingFound(instructions, cfgBack, 1, pc, visited); }
      slot := if word.Some? && word.value.ConcreteWord? then Some(word.value.value) else None;
    }

    /** Every reported slot is derivable from an access of its kind, every slot that an access
        reaches without crossing a JUMPDEST is reported, and so is some slot of each access that
        reaches no hash and not nothing at all. */
    method FindStorageAccess() returns (readSlots: set<nat>, writtenSlots: set<nat>)
      requires Valid()
      modifies this`visited, this`traces
      ensures Accessed(instructions, cfgBack, SLOAD, readSlots)
      ensures Accessed(instructions, cfgBack, SSTORE, writtenSlots)
      ensures Covered(instructions, cfgBack, SLOAD, instructions.Keys, readSlots)
      ensures Covered(instructions, cfgBack, SSTORE, instructions.Keys, writtenSlots)
    {
      readSlots, writtenSlots := {}, {};
      var left := instructions.Keys;
      ghost var done: set<nat> := {};
      while left != {}
        invariant done + left == instructions.Keys
        invariant Accessed(instructions, cfgBack, SLOAD, readSlots)
        invariant Accessed(instructions, cfgBack, SSTORE, writtenSlots)
        invariant Covered(instructions, cfgBack, SLOAD, done, readSlots)
        invariant Covered(instructions, cfgBack, SSTORE, done, writtenSlots)
        decreases left
      {
        var pc :| pc in left;
        var slot := TraceAccess(pc);
        RecordedIsExact(instructions, cfgBack, SLOAD, done, readSlots, pc, slot);
        RecordedIsExact(instructions, cfgBack, SSTORE, done, writtenSlots, pc, slot);
        readSlots := Recorded(instructions, SLOAD, readSlots, pc, slot);
        writtenSlots := Recorded(instructions, SSTORE, writtenSlots, pc, slot);
        left, done := left - {pc}, done + {pc};
      }
      assert done == instructions.Keys;
    }
  }
}
