/** EVM code as a table of decoded instructions, and the stack machine that runs it. */
module EvmCode {

  datatype Name = PUSH | DUP | SWAP | SHA3 | JUMPDEST | JUMP | JUMPI | SLOAD | SSTORE | HALT | OTHER

  /** pops and pushes are the stack effect: DUPn pops n and pushes n + 1, SWAPn pops and
      pushes n + 1. */
  datatype Inst = Inst(name: Name, pops: nat, pushes: nat, operand: nat, size: nat)

  type Code = map<nat, Inst>

  ghost predicate InstOk(i: Inst) {
    && i.size >= 1
    && match i.name
       case PUSH => i.pops == 0 && i.pushes == 1
       case DUP => i.pops >= 1 && i.pushes == i.pops + 1
       case SWAP => i.pops >= 2 && i.pushes == i.pops
       case SHA3 => i.pops == 2 && i.pushes == 1
       case JUMPDEST => i.pops == 0 && i.pushes == 0
       case JUMP => i.pops == 1 && i.pushes == 0
       case JUMPI => i.pops == 2 && i.pushes == 0
       case SLOAD => i.pops == 1 && i.pushes == 1
       case SSTORE => i.pops == 2 && i.pushes == 0
       case _ => true
  }

  /** Instructions do not overlap. */
  ghost predicate CodeOk(code: Code) {
    && (forall pc :: pc in code ==> InstOk(code[pc]))
    && (forall p, q :: p in code && q in code && p < q ==> p + code[p].size <= q)
  }

  /** Stacks are listed from the top. */
  datatype State = State(pc: nat, stack: seq<nat>)

  /** The stack after i: results other than those of PUSH, DUP and SWAP are unconstrained. */
  ghost predicate Effect(i: Inst, before: seq<nat>, after: seq<nat>) {
    && |before| >= i.pops
    && match i.name
       case PUSH => after == [i.operand] + before
       case DUP => i.pops >= 1 && after == [before[i.pops - 1]] + before
       case SWAP => i.pops >= 1 && after == before[0 := before[i.pops - 1]][i.pops - 1 := before[0]]
       case _ => |after| == i.pushes + |before| - i.pops && after[i.pushes..] == before[i.pops..]
  }

  /** One step: control falls through, or jumps to a JUMPDEST. */
  ghost predicate Step(code: Code, s: State, t: State) {
    && s.pc in code && t.pc in code
    && var i := code[s.pc];
       && i.name != HALT
       && Effect(i, s.stack, t.stack)
       && (|| (!i.name.JUMP? && t.pc == s.pc + i.size)
           || ((i.name.JUMP? || i.name.JUMPI?) && code[t.pc].name == JUMPDEST))
  }

  /** An execution from the entry point with an empty stack. */
  ghost predicate Run(code: Code, ss: seq<State>) {
    && |ss| > 0 && ss[0] == State(0, [])
    && forall i :: 0 <= i < |ss| - 1 ==> Step(code, ss[i], ss[i + 1])
  }
}
