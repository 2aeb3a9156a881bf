/** The rotating queues that analyse every contract after the contracts it inherits from. */
module InheritanceQueue {
  import opened Collections

  type Contract = nat

  /** For each contract, all its ancestors. */
  type Inheritance = map<Contract, seq<Contract>>

  datatype State = State(queue: seq<Contract>, analyzed: set<Contract>)

  predicate Ready(inh: Inheritance, c: Contract, analyzed: set<Contract>) {
    c in inh ==> forall a :: a in inh[c] ==> a in analyzed
  }

  /** One pop: the head is analysed when its ancestors have been, and requeued otherwise. */
  function Pop(inh: Inheritance, s: State): State {
    if s.queue == [] then s
    else if Ready(inh, s.queue[0], s.analyzed) then State(s.queue[1..], s.analyzed + {s.queue[0]})
    else State(s.queue[1..] + [s.queue[0]], s.analyzed)
  }

  function Run(inh: Inheritance, s: State, pops: nat): State {
    if pops == 0 then s else Pop(inh, Run(inh, s, pops - 1))
  }

  /** Every ancestor of a queued contract is queued or analysed already. */
  ghost predicate Closed(inh: Inheritance, s: State) {
    forall c, a :: c in s.queue && c in inh && a in inh[c] ==> a in s.queue || a in s.analyzed
  }

  /** c has an ancestor in b. */
  ghost predicate WaitsFor(inh: Inheritance, c: Contract, b: set<Contract>) {
    c in inh && exists a :: a in inh[c] && a in b
  }

  lemma AncestorIn(inh: Inheritance, c: Contract, b: set<Contract>) returns (a: Contract)
    requires WaitsFor(inh, c, b)
    ensures c in inh && a in inh[c] && a in b
  {
    a :| a in inh[c] && a in b;
  }

  /** Unanalysed queued contracts each of which waits for another one of them. */
  ghost predicate Stuck(inh: Inheritance, s: State, b: set<Contract>) {
    && b != {} && b <= Elements(s.queue) && b !! s.analyzed
    && forall c :: c in b ==> WaitsFor(inh, c, b)
  }

  ghost predicate NothingStuck(inh: Inheritance, s: State) {
    forall b :: !Stuck(inh, s, b)
  }

  // ----- stuck contracts stay stuck -----

  lemma StuckAfterPop(inh: Inheritance, s: State, b: set<Contract>)
    requires Stuck(inh, s, b)
    ensures Stuck(inh, Pop(inh, s), b)
  {
    hide WaitsFor;
    if s.queue != [] {
      var c := s.queue[0];
      if c in b {
        var a := AncestorIn(inh, c, b);
        assert !Ready(inh, c, s.analyzed);
      }
      assert s.queue == [c] + s.queue[1..];
    }
  }

  /** However long the queue rotates, contracts on an inheritance cycle are never analysed. */
  lemma {:induction false} StuckForever(inh: Inheritance, s: State, b: set<Contract>, pops: nat)
    requires Stuck(inh, s, b)
    ensures Stuck(inh, Run(inh, s, pops), b)
    ensures Run(inh, s, pops).queue != [] && b !! Run(inh, s, pops).analyzed
  {
    hide WaitsFor;
    if pops > 0 {
      StuckForever(inh, s, b, pops - 1);
      StuckAfterPop(inh, Run(inh, s, pops - 1), b);
    }
    var c :| c in b;
    assert c in Elements(Run(inh, s, pops).queue);
  }

  /** Each contract of the cycle waits to be analysed and inherits from the next one. */
  ghost predicate Cycle(inh: Inheritance, s: State, cycle: seq<Contract>) {
    cycle != [] && forall i :: 0 <= i < |cycle| ==>
      && cycle[i] in s.queue && cycle[i] !in s.analyzed && cycle[i] in inh
      && cycle[if i + 1 < |cycle| then i + 1 else 0] in inh[cycle[i]]
  }

  /** A cycle of unanalysed queued contracts is stuck. */
  lemma CycleIsStuck(inh: Inheritance, s: State, cycle: seq<Contract>)
    requires Cycle(inh, s, cycle)
    ensures Stuck(inh, s, Elements(cycle))
  {
    forall c | c in Elements(cycle) ensures WaitsFor(inh, c, Elements(cycle)) {
      var i :| 0 <= i < |cycle| && cycle[i] == c;
      assert cycle[if i + 1 < |cycle| then i + 1 else 0] in cycle;
    }
    assert cycle[0] in Elements(cycle);
  }

  /** And every stuck set contains one. */
  lemma StuckHasCycle(inh: Inheritance, s: State, b: set<Contract>) returns (cycle: seq<Contract>)
    requires Stuck(inh, s, b)
    ensures Cycle(inh, s, cycle) && Elements(cycle) <= b
  {
    hide WaitsFor;
    var c :| c in b;
    assert Elements([c]) == {c};
    cycle := CycleFrom(inh, s, b, [c]);
  }

  /** Different contracts of b, each inheriting from the next. */
  ghost predicate Ascends(inh: Inheritance, b: set<Contract>, p: seq<Contract>) {
    && p != [] && Elements(p) <= b && |p| == |Elements(p)|
    && forall i :: 0 <= i < |p| - 1 ==> p[i] in inh && p[i + 1] in inh[p[i]]
  }

  /** Going on to an ancestor that is stuck, too, some contract must come again. */
  lemma {:induction false} CycleFrom(inh: Inheritance, s: State, b: set<Contract>, p: seq<Contract>)
      returns (cycle: seq<Contract>)
    requires Stuck(inh, s, b) && Ascends(inh, b, p)
    ensures Cycle(inh, s, cycle) && Elements(cycle) <= b
    decreases |b| - |Elements(p)|
  {
    hide WaitsFor, Stuck;
    StuckWaits(inh, s, b, p[|p| - 1]);
    var a := AncestorIn(inh, p[|p| - 1], b);
    if a in p {
      var i :| 0 <= i < |p| && p[i] == a;
      cycle := p[i..];
      Closes(inh, s, b, p, i);
    } else {
      AscendsSnoc(inh, b, p, a);
      SubsetSize(Elements(p + [a]), b);
      cycle := CycleFrom(inh, s, b, p + [a]);
    }
  }

  lemma StuckWaits(inh: Inheritance, s: State, b: set<Contract>, c: Contract)
    requires Stuck(inh, s, b)
    ensures c in b ==> WaitsFor(inh, c, b) && c in s.queue && c !in s.analyzed
  {
  }

  lemma AscendsSnoc(inh: Inheritance, b: set<Contract>, p: seq<Contract>, a: Contract)
    requires Ascends(inh, b, p) && a in b && a !in p && p[|p| - 1] in inh && a in inh[p[|p| - 1]]
    ensures Ascends(inh, b, p + [a]) && |Elements(p + [a])| == |Elements(p)| + 1
  {
    assert Elements(p + [a]) == Elements(p) + {a};
  }

  lemma Closes(inh: Inheritance, s: State, b: set<Contract>, p: seq<Contract>, i: nat)
    requires Stuck(inh, s, b) && Ascends(inh, b, p) && i < |p| && p[|p| - 1] in inh && p[i] in inh[p[|p| - 1]]
    ensures Cycle(inh, s, p[i..]) && Elements(p[i..]) <= b
  {
    hide WaitsFor, Stuck;
    var cycle := p[i..];
    assert forall k :: 0 <= k < |cycle| ==> cycle[k] == p[i + k] && cycle[k] in Elements(p);
    forall k | 0 <= k < |cycle|
      ensures cycle[k] in s.queue && cycle[k] !in s.analyzed
      ensures cycle[k] in inh && cycle[if k + 1 < |cycle| then k + 1 else 0] in inh[cycle[k]]
    {
      StuckWaits(inh, s, b, cycle[k]);
      assert k + 1 < |cycle| ==> cycle[k + 1] == p[i + k + 1];
    }
  }

  /** A contract further from the roots than its ancestors cannot be part of a stuck set. */
  lemma {:induction false} RankedIsNotStuck(inh: Inheritance, s: State, b: set<Contract>,
                                            rank: map<Contract, nat>, c: Contract)
    requires forall x, a :: x in inh && a in inh[x] && x in rank ==> a in rank && rank[a] < rank[x]
    requires c in b && c in rank && Stuck(inh, s, b)
    ensures false
    decreases rank[c]
  {
    hide WaitsFor;
    var a := AncestorIn(inh, c, b);
    RankedIsNotStuck(inh, s, b, rank, a);
  }

  // ----- without stuck contracts the queue drains -----

  /** Position of the first contract in the queue that is ready. */
  function FirstReady(inh: Inheritance, q: seq<Contract>, analyzed: set<Contract>, i: nat): (k: nat)
    requires i <= |q|
    ensures i <= k <= |q| && (k < |q| ==> Ready(inh, q[k], analyzed))
    ensures forall j :: i <= j < k ==> !Ready(inh, q[j], analyzed)
    decreases |q| - i
  {
    if i == |q| || Ready(inh, q[i], analyzed) then i else FirstReady(inh, q, analyzed, i + 1)
  }

  lemma FirstReadyIs(inh: Inheritance, q: seq<Contract>, analyzed: set<Contract>, k: nat)
    requires k < |q| && Ready(inh, q[k], analyzed) && forall j :: 0 <= j < k ==> !Ready(inh, q[j], analyzed)
    ensures FirstReady(inh, q, analyzed, 0) == k
  {
    var m := FirstReady(inh, q, analyzed, 0);
    assert !(m < k) && !(m > k);
  }

  /** What holds of a queue that can drain. */
  ghost predicate Live(inh: Inheritance, s: State) {
    Closed(inh, s) && NothingStuck(inh, s)
  }

  lemma SomeReady(inh: Inheritance, s: State)
    requires Live(inh, s) && s.queue != []
    ensures FirstReady(inh, s.queue, s.analyzed, 0) < |s.queue|
  {
    if FirstReady(inh, s.queue, s.analyzed, 0) == |s.queue| { var b := NoneReady(inh, s); }
  }

  /** If no contract of the queue is ready, those not yet analysed are stuck. */
  lemma NoneReady(inh: Inheritance, s: State) returns (b: set<Contract>)
    requires Closed(inh, s) && s.queue != [] && forall i :: 0 <= i < |s.queue| ==> !Ready(inh, s.queue[i], s.analyzed)
    ensures Stuck(inh, s, b)
  {
    b := Elements(s.queue) - s.analyzed;
    forall c | c in s.queue ensures WaitsFor(inh, c, b) {
      var i :| 0 <= i < |s.queue| && s.queue[i] == c;
      var a :| a in inh[c] && a !in s.analyzed;
    }
    var a := AncestorIn(inh, s.queue[0], b);
  }

  lemma LiveAfterPop(inh: Inheritance, s: State)
    requires Live(inh, s)
    ensures Live(inh, Pop(inh, s))
  {
    var t := Pop(inh, s);
    forall x ensures x in t.queue || x in t.analyzed <==> x in s.queue || x in s.analyzed { PopKeeps(inh, s, x); }
    forall x | x in t.queue ensures x in s.queue { PopKeeps(inh, s, x); }
    forall b ensures !Stuck(inh, t, b) {
      if Stuck(inh, t, b) { assert Stuck(inh, s, b); }
    }
  }

  lemma PopKeeps(inh: Inheritance, s: State, x: Contract)
    ensures var t := Pop(inh, s);
            && (x in t.queue || x in t.analyzed <==> x in s.queue || x in s.analyzed)
            && (x in t.queue ==> x in s.queue)
  {
    if s.queue != [] {
      assert s.queue == [s.queue[0]] + s.queue[1..];
    }
  }

  function Triangle(n: nat): nat { if n == 0 then 0 else n + Triangle(n - 1) }

  lemma {:induction false} TriangleIsHalfSquare(n: nat)
    ensures Triangle(n) == n * (n + 1) / 2
  {
    if n > 0 { TriangleIsHalfSquare(n - 1); }
  }

  /** Rotating moves the first ready contract one place forward. */
  lemma RotationAdvances(inh: Inheritance, s: State)
    requires s.queue != [] && !Ready(inh, s.queue[0], s.analyzed)
    requires FirstReady(inh, s.queue, s.analyzed, 0) < |s.queue|
    ensures FirstReady(inh, Pop(inh, s).queue, s.analyzed, 0) == FirstReady(inh, s.queue, s.analyzed, 0) - 1
  {
    var q, t := s.queue, Pop(inh, s).queue;
    var k := FirstReady(inh, q, s.analyzed, 0);
    assert forall j :: 0 <= j < k ==> t[j] == q[j + 1];
    FirstReadyIs(inh, t, s.analyzed, k - 1);
  }

  /** The bound kept while the queue drains: pops so far, and those still to be wasted before
      the next contract is analysed. */
  ghost predicate WithinBudget(inh: Inheritance, s: State, pops: nat, n: nat) {
    |s.queue| <= n &&
    if s.queue == [] then pops <= Triangle(n)
    else pops + FirstReady(inh, s.queue, s.analyzed, 0) <= Triangle(n) - Triangle(|s.queue|) + |s.queue| - 1
  }

  lemma {:induction false} TriangleGrows(m: nat, n: nat)
    requires m <= n
    ensures Triangle(m) <= Triangle(n)
  {
    if m < n { TriangleGrows(m, n - 1); }
  }

  lemma PopWithinBudget(inh: Inheritance, s: State, pops: nat, n: nat)
    requires Live(inh, s) && s.queue != [] && WithinBudget(inh, s, pops, n)
    ensures WithinBudget(inh, Pop(inh, s), pops + 1, n)
  {
    hide Live;
    var t := Pop(inh, s);
    TriangleGrows(|t.queue|, n);
    assert Live(inh, s);
    SomeReady(inh, s);
    LiveAfterPop(inh, s);
    if Ready(inh, s.queue[0], s.analyzed) {
      if t.queue != [] { SomeReady(inh, t); }
    } else {
      RotationAdvances(inh, s);
    }
  }

  lemma StartsInBudget(inh: Inheritance, s: State)
    requires Live(inh, s)
    ensures WithinBudget(inh, s, 0, |s.queue|)
  {
    if s.queue != [] { SomeReady(inh, s); }
  }

  lemma EndsInBudget(inh: Inheritance, s: State, pops: nat, n: nat)
    requires WithinBudget(inh, s, pops, n) && s.queue == []
    ensures pops <= Triangle(n)
  {
  }

  // ----- analysis in order -----

  /** Everything analysed since `from`, in order, comes after all its ancestors. */
  ghost predicate Ordered(inh: Inheritance, log: seq<Contract>, from: set<Contract>) {
    forall i :: 0 <= i < |log| ==> Ready(inh, log[i], from + Elements(log[..i]))
  }

  lemma OrderedSnoc(inh: Inheritance, log: seq<Contract>, from: set<Contract>, c: Contract)
    requires Ordered(inh, log, from) && Ready(inh, c, from + Elements(log))
    ensures Ordered(inh, log + [c], from)
  {
    var more := log + [c];
    forall i | 0 <= i < |more| ensures Ready(inh, more[i], from + Elements(more[..i])) {
      assert more[..i] == log[..i];
    }
    assert more[..|log|] == log[..|log|] == log;
  }

  /** added has been analysed since `from`, in this order; the rest of contracts is queued. */
  ghost predicate Progress(inh: Inheritance, contracts: seq<Contract>, from: set<Contract>,
                           s: State, added: seq<Contract>) {
    && multiset(added) + multiset(s.queue) == multiset(contracts)
    && s.analyzed == from + Elements(added) && Ordered(inh, added, from)
  }

  lemma ProgressPop(inh: Inheritance, contracts: seq<Contract>, from: set<Contract>, s: State, added: seq<Contract>)
    requires Progress(inh, contracts, from, s, added) && s.queue != []
    ensures Progress(inh, contracts, from, Pop(inh, s),
                     if Ready(inh, s.queue[0], s.analyzed) then added + [s.queue[0]] else added)
  {
    hide Ordered;
    var c, rest := s.queue[0], s.queue[1..];
    assert multiset(s.queue) == multiset{c} + multiset(rest) by { assert s.queue == [c] + rest; }
    if Ready(inh, c, s.analyzed) {
      OrderedSnoc(inh, added, from, c);
      assert Elements(added + [c]) == Elements(added) + {c};
      assert multiset(added + [c]) == multiset(added) + multiset{c};
    } else {
      assert multiset(rest + [c]) == multiset(rest) + multiset{c};
    }
  }

  lemma ProgressStarts(inh: Inheritance, contracts: seq<Contract>, from: set<Contract>)
    ensures Progress(inh, contracts, from, State(contracts, from), [])
  {
  }

  lemma ProgressDone(inh: Inheritance, contracts: seq<Contract>, from: set<Contract>, s: State, added: seq<Contract>)
    requires Progress(inh, contracts, from, s, added) && s.queue == []
    ensures multiset(added) == multiset(contracts) && Ordered(inh, added, from)
    ensures s.analyzed == from + Elements(contracts)
  {
    assert forall c :: c in multiset(added) <==> c in Elements(added);
    assert forall c :: c in multiset(contracts) <==> c in Elements(contracts);
  }

  class Parser {
    const inheritance: Inheritance
    var isAnalyzed: set<Contract>
    var log: seq<Contract>  // contracts in the order they were analysed

    constructor (inheritance: Inheritance, isAnalyzed: set<Contract>)
      ensures this.inheritance == inheritance && this.isAnalyzed == isAnalyzed && log == []
    {
      this.inheritance, this.isAnalyzed, log := inheritance, isAnalyzed, [];
    }

    /** Drains the queue: each of its contracts is analysed once, after all its ancestors,
        within n(n + 1)/2 pops. */
    method AnalyzeInOrder(contracts: seq<Contract>) returns (pops: nat)
      requires Live(inheritance, State(contracts, isAnalyzed))
      modifies this
      ensures old(log) <= log && multiset(log[|old(log)|..]) == multiset(contracts)
      ensures Ordered(inheritance, log[|old(log)|..], old(isAnalyzed))
      ensures State([], isAnalyzed) == Run(inheritance, State(contracts, old(isAnalyzed)), pops)
      ensures isAnalyzed == old(isAnalyzed) + Elements(contracts)
      ensures pops <= Triangle(|contracts|)
    {
      hide Live, WithinBudget, Ordered, Progress;
      var queue := contracts;
      pops := 0;
      ghost var from, start, s := isAnalyzed, State(contracts, isAnalyzed), State(contracts, isAnalyzed);
      ghost var added: seq<Contract> := [];
      StartsInBudget(inheritance, start);
      ProgressStarts(inheritance, contracts, from);
      while queue != []
        invariant s == State(queue, isAnalyzed) == Run(inheritance, start, pops)
        invariant Live(inheritance, s) && WithinBudget(inheritance, s, pops, |contracts|)
        invariant log == old(log) + added && Progress(inheritance, contracts, from, s, added)
        decreases |queue|, FirstReady(inheritance, queue, isAnalyzed, 0)
      {
        PopWithinBudget(inheritance, s, pops, |contracts|);
        LiveAfterPop(inheritance, s);
        SomeReady(inheritance, s);
        ProgressPop(inheritance, contracts, from, s, added);
        var contract := queue[0];
        queue := queue[1..];
        pops := pops + 1;
        if contract !in inheritance || forall father :: father in inheritance[contract] ==> father in isAnalyzed {
          isAnalyzed := isAnalyzed + {contract};
          log := log + [contract];
          added := added + [contract];
        } else {
          RotationAdvances(inheritance, s);
          queue := queue + [contract];
        }
        s := Pop(inheritance, s);
      }
      EndsInBudget(inheritance, s, pops, |contracts|);
      ProgressDone(inheritance, contracts, from, s, added);
      assert log[|old(log)|..] == added;
    }

    /** One of the three later phases: libraries first, in the order given, then the queue. */
    method AnalyzePart(contracts: seq<Contract>, libraries: seq<Contract>) returns (pops: nat)
      requires isAnalyzed == {} && Live(inheritance, State(contracts, Elements(libraries)))
      modifies this
      ensures isAnalyzed == Elements(libraries) + Elements(contracts)
      ensures old(log) + libraries <= log
      ensures var rest := log[|old(log)| + |libraries|..];
              multiset(rest) == multiset(contracts) && Ordered(inheritance, rest, Elements(libraries))
      ensures pops <= Triangle(|contracts|)
    {
      for i := 0 to |libraries|
        invariant isAnalyzed == Elements(libraries[..i]) && log == old(log) + libraries[..i]
      {
        isAnalyzed := isAnalyzed + {libraries[i]};
        log := log + [libraries[i]];
      }
      assert libraries[..|libraries|] == libraries;
      pops := AnalyzeInOrder(contracts);
    }
  }

  /** The queue empties after some number of pops exactly when nothing in it is stuck, and
      then within n(n + 1)/2 pops. */
  lemma DrainsIffNothingStuck(inh: Inheritance, s: State)
    requires Closed(inh, s)
    ensures (exists pops :: Run(inh, s, pops).queue == []) <==> NothingStuck(inh, s)
    ensures NothingStuck(inh, s) ==> exists pops: nat :: pops <= Triangle(|s.queue|) && Run(inh, s, pops).queue == []
  {
    if exists pops :: Run(inh, s, pops).queue == [] {
      var pops :| Run(inh, s, pops).queue == [];
      forall b ensures !Stuck(inh, s, b) {
        if Stuck(inh, s, b) { StuckForever(inh, s, b, pops); }
      }
    }
    if NothingStuck(inh, s) {
      StartsInBudget(inh, s);
      var pops := Drained(inh, s, s, 0);
      assert Run(inh, s, pops).queue == [];
    }
  }

  /** So it empties exactly when no queued contracts form an inheritance cycle. */
  lemma DrainsIffNoCycle(inh: Inheritance, s: State)
    requires Closed(inh, s)
    ensures (exists pops :: Run(inh, s, pops).queue == []) <==> forall cycle :: !Cycle(inh, s, cycle)
  {
    DrainsIffNothingStuck(inh, s);
    hide Run, Closed, Cycle, Stuck;
    if cycle :| Cycle(inh, s, cycle) {
      CycleIsStuck(inh, s, cycle);
    }
    if b :| Stuck(inh, s, b) {
      var cycle := StuckHasCycle(inh, s, b);
    }
  }

  lemma {:induction false} Drained(inh: Inheritance, start: State, s: State, done: nat) returns (pops: nat)
    requires Live(inh, s) && s == Run(inh, start, done) && WithinBudget(inh, s, done, |start.queue|)
    ensures Run(inh, start, pops).queue == [] && pops <= Triangle(|start.queue|)
    decreases |s.queue|, FirstReady(inh, s.queue, s.analyzed, 0)
  {
    hide Live;
    if s.queue == [] { return done; }
    PopWithinBudget(inh, s, done, |start.queue|);
    LiveAfterPop(inh, s);
    SomeReady(inh, s);
    if !Ready(inh, s.queue[0], s.analyzed) { RotationAdvances(inh, s); }
    pops := Drained(inh, start, Pop(inh, s), done + 1);
  }
}
