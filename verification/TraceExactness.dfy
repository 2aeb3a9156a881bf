/** Exactly when the backward tracer returns the key of a storage access. */
module TraceExactness {
  import opened BackwardTrace
  import opened Collections
  import opened EvmCode

  /** Where an element comes from: a constant of the code, or a result left by the instruction
      that many steps back. Unknown: not decided before a JUMPDEST or the start of the code. */
  datatype Source = Constant(value: nat) | Produced(back: nat, index: nat) | Unknown

  predicate MovesOnly(i: Inst) { i.name == PUSH || i.name == DUP || i.name == SWAP }

  /** The k-th element after i is a result of i. */
  predicate Results(i: Inst, k: nat) { !MovesOnly(i) && k <= i.pushes }

  /** Where the k-th element after i was before i. */
  function Before(i: Inst, k: nat): (b: nat)
    requires InstOk(i) && k >= 1 && !Results(i, k) && !(i.name == PUSH && k == 1)
    ensures b >= 1
  {
    if i.name == DUP then if k == 1 then i.pops else k - 1
    else if i.name == SWAP then if k == 1 then i.pops else if k == i.pops then 1 else k
    else k - i.pushes + i.pops
  }

  function Older(s: Source): Source {
    if s.Produced? then Produced(s.back + 1, s.index) else s
  }

  /** The faithful walk: where the k-th element after the instruction at pc comes from. */
  function Follow(code: Code, k: nat, pc: nat): Source
    requires CodeOk(code) && pc in code && k >= 1
    decreases pc
  {
    var i := code[pc];
    if i.name == JUMPDEST then Unknown
    else if i.name == PUSH && k == 1 then Constant(i.operand)
    else if Results(i, k) then Produced(0, k)
    else if Prev(code, pc) < 0 then Unknown
    else Older(Follow(code, Before(i, k), Prev(code, pc)))
  }

  lemma BeforeIsTracked(i: Inst, before: seq<nat>, after: seq<nat>, k: nat)
    requires InstOk(i) && Effect(i, before, after) && k >= 1 && !Results(i, k) && !(i.name == PUSH && k == 1)
    requires Before(i, k) <= |before|
    ensures k <= |after| && after[k - 1] == before[Before(i, k) - 1]
  {
    if !MovesOnly(i) {
      assert after[k - 1] == after[i.pushes..][k - 1 - i.pushes];
      assert before[Before(i, k) - 1] == before[i.pops..][k - 1 - i.pushes];
    }
  }

  // ----- agreement with forward execution, without any discipline -----

  /** The instruction executed by step m of a run. */
  function Executed(code: Code, ss: seq<State>, m: nat): Inst
    requires m < |ss| && ss[m].pc in code
  {
    code[ss[m].pc]
  }

  /** ss[i] is the state after the instruction at pc; its k-th element is what the walk says. */
  ghost predicate Agrees(code: Code, ss: seq<State>, i: nat, k: nat, s: Source)
    requires i < |ss| && k >= 1
  {
    match s
    case Unknown => true
    case Constant(w) => k <= |ss[i].stack| && ss[i].stack[k - 1] == w
    case Produced(b, j) =>
      && b < i && ss[i - 1 - b].pc in code && 1 <= j && Results(Executed(code, ss, i - 1 - b), j)
      && j <= |ss[i - b].stack| && k <= |ss[i].stack| && ss[i].stack[k - 1] == ss[i - b].stack[j - 1]
  }

  lemma {:induction false} FollowAgrees(code: Code, ss: seq<State>, i: nat, k: nat, pc: nat)
    requires CodeOk(code) && Run(code, ss) && 1 <= i < |ss| && ss[i - 1].pc == pc && pc in code && k >= 1
    ensures Agrees(code, ss, i, k, Follow(code, k, pc))
    decreases i
  {
    hide Agrees, Run, Step, Effect, CodeOk;
    var inst := code[pc];
    RunStep(code, ss, i);
    UnknownAgrees(code, ss, i, k);
    if inst.name == JUMPDEST {
    } else if (inst.name == PUSH && k == 1) || Results(inst, k) {
      AgreesHere(code, ss, i, k);
    } else if Prev(code, pc) >= 0 {
      CameThrough(code, ss, i);
      FollowAgrees(code, ss, i - 1, Before(inst, k), ss[i - 2].pc);
      AgreesOlder(code, ss, i, k, Follow(code, Before(inst, k), ss[i - 2].pc));
    }
  }

  lemma RunStep(code: Code, ss: seq<State>, i: nat)
    requires CodeOk(code) && Run(code, ss) && 1 <= i < |ss|
    ensures ss[i - 1].pc in code && InstOk(code[ss[i - 1].pc])
    ensures Effect(code[ss[i - 1].pc], ss[i - 1].stack, ss[i].stack)
  {
    assert Step(code, ss[i - 1], ss[i]);
  }

  /** An instruction that is no JUMPDEST and not the first one was reached from the one before it. */
  lemma CameThrough(code: Code, ss: seq<State>, i: nat)
    requires CodeOk(code) && Run(code, ss) && 1 <= i < |ss| && ss[i - 1].pc in code
    requires code[ss[i - 1].pc].name != JUMPDEST && Prev(code, ss[i - 1].pc) >= 0
    ensures i > 1 && Prev(code, ss[i - 1].pc) == ss[i - 2].pc
  {
    assert i > 1;
    assert Step(code, ss[i - 2], ss[i - 1]);
    FallsThrough(code, ss[i - 2], ss[i - 1]);
  }

  lemma UnknownAgrees(code: Code, ss: seq<State>, i: nat, k: nat)
    requires i < |ss| && k >= 1
    ensures Agrees(code, ss, i, k, Unknown)
  {
  }

  lemma AgreesHere(code: Code, ss: seq<State>, i: nat, k: nat)
    requires CodeOk(code) && 1 <= i < |ss| && k >= 1 && ss[i - 1].pc in code
    requires Effect(code[ss[i - 1].pc], ss[i - 1].stack, ss[i].stack)
    ensures var inst := code[ss[i - 1].pc];
            && (inst.name == PUSH && k == 1 ==> Agrees(code, ss, i, k, Constant(inst.operand)))
            && (Results(inst, k) ==> Agrees(code, ss, i, k, Produced(0, k)))
  {
  }

  lemma AgreesOlder(code: Code, ss: seq<State>, i: nat, k: nat, s: Source)
    requires 2 <= i < |ss| && k >= 1 && ss[i - 1].pc in code && InstOk(code[ss[i - 1].pc])
    requires Effect(code[ss[i - 1].pc], ss[i - 1].stack, ss[i].stack)
    requires var inst := code[ss[i - 1].pc];
             !Results(inst, k) && !(inst.name == PUSH && k == 1) && Agrees(code, ss, i - 1, Before(inst, k), s)
    ensures Agrees(code, ss, i, k, Older(s))
  {
    hide Effect, Results, InstOk;
    if !s.Unknown? {
      BeforeIsTracked(code[ss[i - 1].pc], ss[i - 1].stack, ss[i].stack, k);
    }
  }

  // ----- changing a free result -----

  /** What i leaves on another stack when its own results are those of `after`. */
  function Redo(i: Inst, before: seq<nat>, after: seq<nat>): (s: seq<nat>)
    requires InstOk(i) && |before| >= i.pops && |after| == i.pushes + |before| - i.pops
    ensures |s| == |after| && Effect(i, before, s)
  {
    match i.name
    case PUSH => [i.operand] + before
    case DUP => [before[i.pops - 1]] + before
    case SWAP => before[0 := before[i.pops - 1]][i.pops - 1 := before[0]]
    case _ =>
      assert (after[..i.pushes] + before[i.pops..])[i.pushes..] == before[i.pops..];
      after[..i.pushes] + before[i.pops..]
  }

  lemma EffectLength(i: Inst, before: seq<nat>, after: seq<nat>)
    requires InstOk(i) && Effect(i, before, after)
    ensures |before| >= i.pops && |after| == i.pushes + |before| - i.pops
  {
  }

  /** The stack of step n when element j of step m is x instead. */
  ghost function Restacked(code: Code, ss: seq<State>, m: nat, j: nat, x: nat, n: nat): (s: seq<nat>)
    requires CodeOk(code) && Run(code, ss) && n < |ss| && m < |ss| && 1 <= j <= |ss[m].stack|
    ensures |s| == |ss[n].stack|
    ensures n > m ==> ss[n - 1].pc in code
                      && Effect(code[ss[n - 1].pc], Restacked(code, ss, m, j, x, n - 1), s)
    decreases n
  {
    if n < m then ss[n].stack
    else if n == m then ss[m].stack[j - 1 := x]
    else
      assert Step(code, ss[n - 1], ss[n]);
      var i := code[ss[n - 1].pc];
      EffectLength(i, ss[n - 1].stack, ss[n].stack);
      Redo(i, Restacked(code, ss, m, j, x, n - 1), ss[n].stack)
  }

  ghost function Rerun(code: Code, ss: seq<State>, m: nat, j: nat, x: nat): (r: seq<State>)
    requires CodeOk(code) && Run(code, ss) && m < |ss| && 1 <= j <= |ss[m].stack|
    ensures |r| == |ss|
  {
    seq(|ss|, n requires 0 <= n < |ss| => State(ss[n].pc, Restacked(code, ss, m, j, x, n)))
  }

  /** A result that nothing constrains can be any value: the rest of the run goes on with it. */
  lemma RerunIsRun(code: Code, ss: seq<State>, m: nat, j: nat, x: nat)
    requires CodeOk(code) && Run(code, ss) && 1 <= m < |ss| && 1 <= j <= |ss[m].stack|
    requires ss[m - 1].pc in code && Results(code[ss[m - 1].pc], j)
    ensures Run(code, Rerun(code, ss, m, j, x)) && Rerun(code, ss, m, j, x)[m].stack[j - 1] == x
  {
    var r := Rerun(code, ss, m, j, x);
    forall n | 0 <= n < |r| - 1 ensures Step(code, r[n], r[n + 1]) {
      RerunStep(code, ss, m, j, x, n);
    }
  }

  lemma RerunStep(code: Code, ss: seq<State>, m: nat, j: nat, x: nat, n: nat)
    requires CodeOk(code) && Run(code, ss) && 1 <= m < |ss| && 1 <= j <= |ss[m].stack| && n < |ss| - 1
    requires ss[m - 1].pc in code && Results(code[ss[m - 1].pc], j)
    ensures Step(code, Rerun(code, ss, m, j, x)[n], Rerun(code, ss, m, j, x)[n + 1])
  {
    RestackedEffect(code, ss, m, j, x, n);
    assert Step(code, ss[n], ss[n + 1]);
    SameMove(code, ss[n], ss[n + 1], Rerun(code, ss, m, j, x)[n], Rerun(code, ss, m, j, x)[n + 1]);
  }

  lemma RestackedEffect(code: Code, ss: seq<State>, m: nat, j: nat, x: nat, n: nat)
    requires CodeOk(code) && Run(code, ss) && 1 <= m < |ss| && 1 <= j <= |ss[m].stack| && n < |ss| - 1
    requires ss[m - 1].pc in code && Results(code[ss[m - 1].pc], j)
    ensures ss[n].pc in code
    ensures Effect(code[ss[n].pc], Restacked(code, ss, m, j, x, n), Restacked(code, ss, m, j, x, n + 1))
  {
    RunStep(code, ss, n + 1);
    hide Effect, Run, CodeOk, Results;
    if n + 1 == m { ResultIsFree(code[ss[n].pc], ss[n].stack, ss[m].stack, j, x); }
  }

  /** Where control goes does not depend on the stack. */
  lemma SameMove(code: Code, s: State, t: State, s': State, t': State)
    requires Step(code, s, t) && s'.pc == s.pc && t'.pc == t.pc && Effect(code[s.pc], s'.stack, t'.stack)
    ensures Step(code, s', t')
  {
    hide Effect;
  }

  lemma ResultIsFree(i: Inst, before: seq<nat>, after: seq<nat>, j: nat, x: nat)
    requires InstOk(i) && Effect(i, before, after) && 1 <= j <= |after| && Results(i, j)
    ensures Effect(i, before, after[j - 1 := x])
  {
    assert after[j - 1 := x][i.pushes..] == after[i.pushes..];
  }

  // ----- when the traced word is the key -----

  ghost predicate Arrives(ss: seq<State>, i: nat, pc: nat) {
    i < |ss| && ss[i].pc == pc
  }

  ghost predicate Reached(code: Code, pc: nat) {
    exists ss: seq<State>, i: nat :: Run(code, ss) && Arrives(ss, i, pc)
  }

  /** Whenever the access at pc is about to execute, its key is w, for every interpretation of the
      instructions other than PUSH, DUP and SWAP: a run may give their results any value. */
  ghost predicate KeyIs(code: Code, pc: nat, w: nat) {
    forall ss: seq<State>, i: nat :: Run(code, ss) && Arrives(ss, i, pc) ==> |ss[i].stack| >= 1 && ss[i].stack[0] == w
  }

  ghost predicate Access(code: Code, pc: nat) {
    pc in code && (code[pc].name == SLOAD || code[pc].name == SSTORE) && Prev(code, pc) >= 0
  }

  /** The key on one run, which gets to the access through the instruction before it. */
  lemma KeyOnRun(code: Code, pc: nat, ss: seq<State>, i: nat)
    requires CodeOk(code) && Access(code, pc) && Run(code, ss) && Arrives(ss, i, pc)
    ensures i >= 1 && Agrees(code, ss, i, 1, Follow(code, 1, Prev(code, pc)))
  {
    assert i >= 1;
    assert Step(code, ss[i - 1], ss[i]);
    FallsThrough(code, ss[i - 1], ss[i]);
    FollowAgrees(code, ss, i, 1, ss[i - 1].pc);
  }

  /** A key that some instruction computes is no fixed word for every interpretation of it. */
  lemma ProducedKeyVaries(code: Code, pc: nat, w: nat)
    requires CodeOk(code) && Access(code, pc) && Reached(code, pc) && Follow(code, 1, Prev(code, pc)).Produced?
    ensures !KeyIs(code, pc, w)
  {
    var ss: seq<State>, i: nat :| Run(code, ss) && Arrives(ss, i, pc);
    ProducedKeyChanges(code, pc, w, ss, i);
  }

  lemma ProducedKeyChanges(code: Code, pc: nat, w: nat, ss: seq<State>, i: nat)
    requires CodeOk(code) && Access(code, pc) && Follow(code, 1, Prev(code, pc)).Produced?
    requires Run(code, ss) && Arrives(ss, i, pc)
    ensures !KeyIs(code, pc, w)
  {
    hide Run, CodeOk, Results, Follow, Agrees, Rerun, KeyIs;
    KeyOnRun(code, pc, ss, i);
    hide *;
    var s := Follow(code, 1, Prev(code, pc));
    ProducedAt(code, ss, i, s);
    var m := i - s.back;
    var r := Rerun(code, ss, m, s.index, w + 1);
    RerunIsRun(code, ss, m, s.index, w + 1);
    SameArrival(code, ss, m, s.index, w + 1, i, pc);
    KeyOnRun(code, pc, r, i);
    ProducedAt(code, r, i, s);
    NotTheKey(code, pc, w, r, i);
  }

  /** The key is the result it was traced to. */
  lemma ProducedAt(code: Code, ss: seq<State>, i: nat, s: Source)
    requires i < |ss| && s.Produced? && Agrees(code, ss, i, 1, s)
    ensures s.back < i && ss[i - s.back - 1].pc in code && 1 <= s.index <= |ss[i - s.back].stack|
    ensures Results(code[ss[i - s.back - 1].pc], s.index)
    ensures |ss[i].stack| >= 1 && ss[i].stack[0] == ss[i - s.back].stack[s.index - 1]
  {
  }

  lemma SameArrival(code: Code, ss: seq<State>, m: nat, j: nat, x: nat, i: nat, pc: nat)
    requires CodeOk(code) && Run(code, ss) && m < |ss| && 1 <= j <= |ss[m].stack| && Arrives(ss, i, pc)
    ensures Arrives(Rerun(code, ss, m, j, x), i, pc) && i < |ss|
  {
  }

  lemma NotTheKey(code: Code, pc: nat, w: nat, ss: seq<State>, i: nat)
    requires Run(code, ss) && Arrives(ss, i, pc) && i < |ss| && |ss[i].stack| >= 1 && ss[i].stack[0] != w
    ensures !KeyIs(code, pc, w)
  {
  }

  /** The tracer against all runs: for an access that is reached and whose key is decided before
      a JUMPDEST, the traced word is the key for every interpretation of the other instructions
      exactly when the faithful walk ends at that same constant. */
  lemma TracedKeyIff(code: Code, pc: nat)
    requires CodeOk(code) && Access(code, pc) && Reached(code, pc) && !Follow(code, 1, Prev(code, pc)).Unknown?
    requires Walk(code, 1, pc).Found? && Walk(code, 1, pc).word.ConcreteWord?
    ensures var w := Walk(code, 1, pc).word.value;
            KeyIs(code, pc, w) <==> Follow(code, 1, Prev(code, pc)) == Constant(w)
  {
    var w, s := Walk(code, 1, pc).word.value, Follow(code, 1, Prev(code, pc));
    if s.Produced? {
      ProducedKeyVaries(code, pc, w);
    } else {
      forall ss: seq<State>, i: nat | Run(code, ss) && Arrives(ss, i, pc)
        ensures |ss[i].stack| >= 1 && ss[i].stack[0] == s.value
      {
        KeyOnRun(code, pc, ss, i);
      }
      var ss: seq<State>, i: nat :| Run(code, ss) && Arrives(ss, i, pc);
    }
  }

  /** The instruction b steps before pc, or -1. */
  function Back(code: Code, pc: int, b: nat): int {
    if b == 0 || pc < 0 then pc else Back(code, Prev(code, pc), b - 1)
  }

  /** What the trace from pc should find, given where the element comes from. */
  ghost predicate Finds(code: Code, pc: nat, s: Source, o: Outcome) {
    match s
    case Constant(w) => o == Found(ConcreteWord(w))
    case Produced(b, j) =>
      o == Found(HashedWord) && j == 1 && Back(code, pc, b) in code && code[Back(code, pc, b)].name == SHA3
    case Unknown => o == Exhausted
  }

  lemma FindsOlder(code: Code, pc: nat, s: Source, o: Outcome)
    requires Prev(code, pc) >= 0 && Finds(code, Prev(code, pc), s, o)
    ensures Finds(code, pc, Older(s), o)
  {
    hide Prev;
  }

  /** A disciplined trace is a faithful one: it answers a constant of the code just where the
      element comes from, a hash just where a SHA3 has left it, and nothing just where the code
      begins. */
  lemma {:induction false} DisciplinedIsExact(code: Code, k: nat, pc: nat)
    requires CodeOk(code) && pc in code && k >= 1 && Disciplined(code, k, pc)
    ensures Finds(code, pc, Follow(code, k, pc), Walk(code, k, pc))
    decreases pc
  {
    hide Finds, Follow, Walk, Disciplined;
    var i, p := code[pc], Prev(code, pc);
    DisciplinedStep(code, k, pc);
    if k == 1 && (i.name == PUSH || i.name == SHA3) {
      FindsHere(code, pc);
    } else if p < 0 {
      FindsNothing(code, k, pc);
    } else {
      DisciplinedIsExact(code, Before(i, k), p);
      FindsOlder(code, pc, Follow(code, Before(i, k), p), Walk(code, Before(i, k), p));
      StepsBack(code, k, pc);
    }
  }

  lemma DisciplinedStep(code: Code, k: nat, pc: nat)
    requires CodeOk(code) && pc in code && k >= 1 && Disciplined(code, k, pc)
    ensures var i := code[pc];
            !(k == 1 && (i.name == PUSH || i.name == SHA3)) ==>
              && InstOk(i) && !Results(i, k) && Shift(i, k) == Before(i, k) && i.name != JUMPDEST
              && (Prev(code, pc) >= 0 ==> Disciplined(code, Before(i, k), Prev(code, pc)))
  {
  }

  lemma FindsHere(code: Code, pc: nat)
    requires CodeOk(code) && pc in code && (code[pc].name == PUSH || code[pc].name == SHA3)
    ensures Finds(code, pc, Follow(code, 1, pc), Walk(code, 1, pc))
  {
  }

  lemma FindsNothing(code: Code, k: nat, pc: nat)
    requires CodeOk(code) && pc in code && k >= 1 && code[pc].name != JUMPDEST && Prev(code, pc) < 0
    requires !Results(code[pc], k) && !(k == 1 && code[pc].name == PUSH) && !(k == 1 && code[pc].name == SHA3)
    ensures Finds(code, pc, Follow(code, k, pc), Walk(code, k, pc))
  {
  }

  lemma StepsBack(code: Code, k: nat, pc: nat)
    requires CodeOk(code) && pc in code && k >= 1 && code[pc].name != JUMPDEST && Prev(code, pc) >= 0
    requires !Results(code[pc], k) && !(k == 1 && code[pc].name == PUSH) && !(k == 1 && code[pc].name == SHA3)
    requires Shift(code[pc], k) == Before(code[pc], k)
    ensures Follow(code, k, pc) == Older(Follow(code, Before(code[pc], k), Prev(code, pc)))
    ensures Walk(code, k, pc) == Walk(code, Before(code[pc], k), Prev(code, pc))
  {
  }

  /** A disciplined trace from an SLOAD whose key a SHA3 has left recognises the hash, and no slot
      is read off. */
  lemma HashedKeyIsRecognised(code: Code, pc: nat)
    requires CodeOk(code) && Access(code, pc) && code[pc].name == SLOAD
    requires Disciplined(code, 1, Prev(code, pc)) && Follow(code, 1, Prev(code, pc)).Produced?
    ensures Walk(code, 1, pc) == Found(HashedWord) && DirectSlot(code, pc) == None
  {
    DisciplinedIsExact(code, 1, Prev(code, pc));
  }

  /** PUSH v, PUSH w, SHA3, SLOAD, as for an entry of a mapping. */
  lemma MappingReadHasNoSlot(code: Code, v: nat, w: nat, a: nat, b: nat, c: nat)
    requires 0 < a < b < c
    requires At(code, 0, Inst(PUSH, 0, 1, v, a), a) && At(code, a, Inst(PUSH, 0, 1, w, b - a), b)
    requires At(code, b, Inst(SHA3, 2, 1, 0, c - b), c) && code[c] == Inst(SLOAD, 1, 1, 0, 1)
    ensures Walk(code, 1, c) == Found(HashedWord) && DirectSlot(code, c) == None
  {
    WalkBack(code, 1, b, code[b], c);
  }

  /** The element the index stands for before an instruction: at DUP always the duplicated one, at
      SWAP the one that came to the place of the index, and at every other instruction the one as
      far from the bottom of the stack. */
  lemma ShiftMeans(i: Inst, before: seq<nat>, after: seq<nat>, k: int)
    requires InstOk(i) && Effect(i, before, after)
    ensures if i.name == DUP then Shift(i, k) == i.pops && after[0] == before[Shift(i, k) - 1]
            else if i.name == SWAP && 1 <= k <= |after| then
              1 <= Shift(i, k) <= |before| && after[k - 1] == before[Shift(i, k) - 1]
            else i.name != SWAP ==> |before| - Shift(i, k) == |after| - k
  {
  }

  /** ss[i] is the state after the instruction at pc; the traced word is its k-th element. */
  lemma WalkAgrees(code: Code, ss: seq<State>, i: nat, k: nat, pc: nat)
    requires CodeOk(code) && Run(code, ss) && 1 <= i < |ss| && ss[i - 1].pc == pc
    requires k >= 1 && pc in code && Disciplined(code, k, pc)
    requires Walk(code, k, pc).Found? && Walk(code, k, pc).word.ConcreteWord?
    ensures k <= |ss[i].stack| && ss[i].stack[k - 1] == Walk(code, k, pc).word.value
  {
    DisciplinedIsExact(code, k, pc);
    FollowAgrees(code, ss, i, k, pc);
  }

  /** The trace started at an SLOAD: on every run, whenever that SLOAD is about to execute,
      its key is the word returned. */
  lemma SloadKeyIsTraced(code: Code, ss: seq<State>, i: nat)
    requires CodeOk(code) && Run(code, ss) && i < |ss| && ss[i].pc in code
    requires code[ss[i].pc].name == SLOAD && Prev(code, ss[i].pc) >= 0
    requires Disciplined(code, 1, Prev(code, ss[i].pc))
    requires Walk(code, 1, ss[i].pc).Found? && Walk(code, 1, ss[i].pc).word.ConcreteWord?
    ensures |ss[i].stack| >= 1 && ss[i].stack[0] == Walk(code, 1, ss[i].pc).word.value
  {
    AccessStepsBack(code, ss[i].pc);
    ArrivesFrom(code, ss, i);
    hide *;
    WalkAgrees(code, ss, i, 1, ss[i - 1].pc);
  }

  /** The trace from an access goes on with the element that the index stands for before it. */
  lemma AccessStepsBack(code: Code, pc: nat)
    requires CodeOk(code) && Access(code, pc)
    ensures Walk(code, 1, pc) == Walk(code, if code[pc].name == SLOAD then 1 else 3, Prev(code, pc))
  {
    hide CodeOk, Walk;
    AccessShifts(code, pc);
    WalkGoesOn(code, 1, pc);
  }

  lemma WalkGoesOn(code: Code, k: int, pc: nat)
    requires pc in code && Prev(code, pc) >= 0 && Answer(code[pc], k).None? && code[pc].name != JUMPDEST
    ensures Walk(code, k, pc) == Walk(code, Shift(code[pc], k), Prev(code, pc))
  {
  }

  lemma AccessShifts(code: Code, pc: nat)
    requires CodeOk(code) && Access(code, pc)
    ensures Shift(code[pc], 1) == if code[pc].name == SLOAD then 1 else 3
  {
    assert InstOk(code[pc]);
  }

  lemma ArrivesFrom(code: Code, ss: seq<State>, i: nat)
    requires CodeOk(code) && Run(code, ss) && i < |ss| && Access(code, ss[i].pc)
    ensures i >= 1 && ss[i - 1].pc == Prev(code, ss[i].pc) && ss[i - 1].pc in code
  {
    assert i >= 1;
    assert Step(code, ss[i - 1], ss[i]);
    FallsThrough(code, ss[i - 1], ss[i]);
  }

  /** The trace started at an SSTORE returns the third stack element. */
  lemma SstoreTracesThirdElement(code: Code, ss: seq<State>, i: nat)
    requires CodeOk(code) && Run(code, ss) && i < |ss| && ss[i].pc in code
    requires code[ss[i].pc].name == SSTORE && Prev(code, ss[i].pc) >= 0
    requires Disciplined(code, 3, Prev(code, ss[i].pc))
    requires Walk(code, 1, ss[i].pc).Found? && Walk(code, 1, ss[i].pc).word.ConcreteWord?
    ensures |ss[i].stack| >= 3 && ss[i].stack[2] == Walk(code, 1, ss[i].pc).word.value
  {
    AccessStepsBack(code, ss[i].pc);
    ArrivesFrom(code, ss, i);
    hide *;
    WalkAgrees(code, ss, i, 3, ss[i - 1].pc);
  }

  /** PUSH x, PUSH v, PUSH w, SSTORE: the key is w, and the trace returns x. */
  lemma SstoreReturnsAnotherElement(code: Code, x: nat, v: nat, w: nat, a: nat, b: nat, c: nat)
    requires 0 < a < b < c
    requires At(code, 0, Inst(PUSH, 0, 1, x, a), a)
    requires At(code, a, Inst(PUSH, 0, 1, v, b - a), b)
    requires At(code, b, Inst(PUSH, 0, 1, w, c - b), c) && code[c] == Inst(SSTORE, 2, 0, 0, 1)
    ensures Walk(code, 1, c) == Found(ConcreteWord(x))
    ensures Run(code, [State(0, []), State(a, [x]), State(b, [v, x]), State(c, [w, v, x])])
  {
    WalkBack(code, 1, b, code[b], c);
    WalkBack(code, 3, a, code[a], b);
    WalkBack(code, 2, 0, code[0], a);
    assert [v, x] == [v] + [x] && [w, v, x] == [w] + [v, x];
    assert Step(code, State(0, []), State(a, [x])) && Step(code, State(a, [x]), State(b, [v, x]));
    assert Step(code, State(b, [v, x]), State(c, [w, v, x]));
  }
}
