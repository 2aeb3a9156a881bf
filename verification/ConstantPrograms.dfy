/** What typing constants does to a program, read off its instructions one kind at a time. */
module ConstantPrograms {
  import opened ConstantTypes

  // ----- one instruction -----

  /** An argument that is an operand of integer type. */
  predicate IsInteger(t: Types, a: Argument) {
    a.One? && a.v in t && t[a.v].Signed?
  }

  predicate Signs(t: Types, v: Var) { v in t && t[v].Signed? }

  /** An array of integers. */
  predicate SignsElements(t: Types, v: Var) { v in t && t[v].Array? && t[v].elem.Signed? }

  /** The instruction finds every operand typed that it would type. */
  ghost predicate Satisfied(t: Types, i: Instruction) {
    match i
    case Assignment(l, Value(r)) => Signs(t, l) ==> Signs(t, r)
    case Binary(l, a, b) => Signs(t, l) ==> Signs(t, a) && Signs(t, b)
    case Call(Parameters(ps), args) =>
      |ps| == |args| && forall k :: 0 <= k < |args| && Signs(t, ps[k]) ==> IsInteger(t, args[k])
    case Call(Getter(keys), args) =>
      |keys| == |args| && forall k :: 0 <= k < |args| && keys[k].Signed? ==> IsInteger(t, args[k])
    case NewStructure(fields, args) =>
      |args| <= |fields| && forall k :: 0 <= k < |args| && Signs(t, fields[k]) ==> IsInteger(t, args[k])
    case InitArray(l, operands) =>
      SignsElements(t, l) ==> forall k :: 0 <= k < |operands| ==> Signs(t, operands[k])
    case _ => true
  }

  lemma MetIffSatisfied(t: Types, i: Instruction)
    requires AllKnown(t, Rules(i)) && !IsUnresolved(i)
    ensures Met(t, i) <==> Satisfied(t, i)
  {
    var rules := Rules(i);
    if Met(t, i) { MetIsSatisfied(t, i); }
    if Satisfied(t, i) {
      forall k | 0 <= k < |rules| ensures Holds(t, rules[k]) { assert Known(t, rules[k]); }
    }
  }

  lemma MetIsSatisfied(t: Types, i: Instruction)
    requires AllKnown(t, Rules(i)) && !IsUnresolved(i) && Met(t, i)
    ensures Satisfied(t, i)
  {
    var rules := Rules(i);
    assert forall k :: 0 <= k < |rules| ==> Known(t, rules[k]) && Holds(t, rules[k]);
    match i
    case Assignment(_, Value(_)) => assert Holds(t, rules[0]);
    case Binary(_, _, _) => assert Holds(t, rules[0]) && Holds(t, rules[1]);
    case Call(Parameters(ps), args) =>
      forall k | 0 <= k < |args| && Signs(t, ps[k]) ensures IsInteger(t, args[k]) { assert Holds(t, rules[k]); }
    case Call(Getter(keys), args) =>
      forall k | 0 <= k < |args| && keys[k].Signed? ensures IsInteger(t, args[k]) { assert Holds(t, rules[k]); }
    case NewStructure(fields, args) =>
      forall k | 0 <= k < |args| && Signs(t, fields[k]) ensures IsInteger(t, args[k]) { assert Holds(t, rules[k]); }
    case InitArray(l, operands) =>
      forall k | 0 <= k < |operands| && SignsElements(t, l) ensures Signs(t, operands[k]) {
        assert Holds(t, rules[k]);
      }
    case _ =>
  }

  /** An operand the pass cannot read. */
  predicate CannotRead(t: Types, a: Argument) {
    a.Several? || (a.v in t && (t[a.v].Opaque? || t[a.v].Alias?))
  }

  /** The instruction raises. */
  ghost predicate Stops(t: Types, i: Instruction) {
    match i
    case Assignment(l, Value(r)) => Signs(t, l) && r in t && t[r].Opaque?
    case Binary(l, a, b) => Signs(t, l) && (CannotRead(t, One(a)) || CannotRead(t, One(b)))
    case Call(Parameters(ps), args) =>
      |ps| != |args| || exists k :: 0 <= k < |args| && Signs(t, ps[k]) && CannotRead(t, args[k])
    case Call(Getter(keys), args) =>
      |keys| != |args| || exists k :: 0 <= k < |args| && keys[k].Signed? && CannotRead(t, args[k])
    case NewStructure(fields, args) =>
      |args| > |fields| || exists k :: 0 <= k < |args| && Signs(t, fields[k]) && CannotRead(t, args[k])
    case InitArray(l, operands) =>
      SignsElements(t, l) && exists k :: 0 <= k < |operands| && CannotRead(t, One(operands[k]))
    case _ => false
  }

  lemma BlockedIffStops(t: Types, i: Instruction)
    requires AllKnown(t, Rules(i)) && !IsUnresolved(i)
    ensures Blocked(t, i) <==> Stops(t, i)
  {
    var rules := Rules(i);
    assert forall k :: 0 <= k < |rules| ==> Known(t, rules[k]);
    if ArityOk(i) && Blocked(t, i) {
      var k :| 0 <= k < |rules| && Raises(t, rules[k]);
    }
    if ArityOk(i) && Stops(t, i) {
      var k := StoppedAt(t, i);
    }
  }

  lemma StoppedAt(t: Types, i: Instruction) returns (k: nat)
    requires AllKnown(t, Rules(i)) && ArityOk(i) && Stops(t, i)
    ensures k < |Rules(i)| && Raises(t, Rules(i)[k])
  {
    assert forall j :: 0 <= j < |Rules(i)| ==> Known(t, Rules(i)[j]);
    match i
    case Assignment(_, _) => k := 0;
    case Binary(_, a, _) => k := if CannotRead(t, One(a)) then 0 else 1;
    case Call(Parameters(ps), args) => k :| 0 <= k < |args| && Signs(t, ps[k]) && CannotRead(t, args[k]);
    case Call(Getter(keys), args) => k :| 0 <= k < |args| && keys[k].Signed? && CannotRead(t, args[k]);
    case NewStructure(fields, args) => k :| 0 <= k < |args| && Signs(t, fields[k]) && CannotRead(t, args[k]);
    case InitArray(_, operands) => k :| 0 <= k < |operands| && CannotRead(t, One(operands[k]));
  }

  // ----- where a type comes from -----

  /** The instruction hands the type of x on to v. */
  ghost predicate HandsOn(i: Instruction, x: Var, v: Var) {
    match i
    case Assignment(l, Value(r)) => x == l && v == r
    case Binary(l, a, b) => x == l && (v == a || v == b)
    case Call(Parameters(ps), args) =>
      |ps| == |args| && exists k :: 0 <= k < |args| && ps[k] == x && args[k] == One(v)
    case NewStructure(fields, args) =>
      exists k :: 0 <= k < |args| && k < |fields| && fields[k] == x && args[k] == One(v)
    case _ => false
  }

  /** The instruction gives v this type without looking at a variable's own type. */
  ghost predicate Gives(t0: Types, i: Instruction, v: Var, ty: Type) {
    match i
    case Call(Getter(keys), args) =>
      |keys| == |args| && exists k :: 0 <= k < |args| && keys[k] == ty && args[k] == One(v)
    case InitArray(l, operands) => l in t0 && t0[l] == Array(ty) && v in operands
    case _ => false
  }

  lemma HandsOnIff(i: Instruction, x: Var, v: Var)
    ensures HandsOn(i, x, v) <==> exists k :: 0 <= k < |Rules(i)| && Rules(i)[k].source == TypeOf(x)
                                              && Rules(i)[k].target == One(v)
  {
    var rules := Rules(i);
    if HandsOn(i, x, v) {
      var k := HandedAt(i, x, v);
      assert rules[k].source == TypeOf(x);
    }
  }

  lemma HandedAt(i: Instruction, x: Var, v: Var) returns (k: nat)
    requires HandsOn(i, x, v)
    ensures k < |Rules(i)| && Rules(i)[k].source == TypeOf(x) && Rules(i)[k].target == One(v)
  {
    match i
    case Assignment(_, _) => k := 0;
    case Binary(_, a, _) => k := if v == a then 0 else 1;
    case Call(Parameters(ps), args) => k :| 0 <= k < |args| && ps[k] == x && args[k] == One(v);
    case NewStructure(fields, args) =>
      k :| 0 <= k < |args| && k < |fields| && fields[k] == x && args[k] == One(v);
  }

  lemma GivesIff(t0: Types, i: Instruction, v: Var, ty: Type)
    requires AllKnown(t0, Rules(i)) && ty.Signed?
    ensures Gives(t0, i, v, ty) <==> exists k :: 0 <= k < |Rules(i)| && !Rules(i)[k].source.TypeOf?
                                                 && Rules(i)[k].target == One(v)
                                                 && SourceType(t0, Rules(i)[k].source) == ty
  {
    var rules := Rules(i);
    assert forall k :: 0 <= k < |rules| ==> Known(t0, rules[k]);
    if Gives(t0, i, v, ty) {
      var k := GivenAt(t0, i, v, ty);
      assert !rules[k].source.TypeOf?;
    }
  }

  lemma GivenAt(t0: Types, i: Instruction, v: Var, ty: Type) returns (k: nat)
    requires AllKnown(t0, Rules(i)) && Gives(t0, i, v, ty)
    ensures k < |Rules(i)| && Known(t0, Rules(i)[k]) && !Rules(i)[k].source.TypeOf? && Rules(i)[k].target == One(v)
    ensures SourceType(t0, Rules(i)[k].source) == ty
  {
    match i
    case Call(Getter(keys), args) => k :| 0 <= k < |args| && keys[k] == ty && args[k] == One(v);
    case InitArray(_, operands) => k :| 0 <= k < |operands| && operands[k] == v;
  }

  // ----- a whole run -----

  /** Instruction k is looked at: no call before it, nor itself, is without a function. */
  ghost predicate LookedAt(irs: seq<Instruction>, k: nat) {
    k < |irs| && forall j :: 0 <= j <= k ==> !(irs[j].Call? && irs[j].callee.Unresolved?)
  }

  lemma LookedAtIffVisited(irs: seq<Instruction>, k: nat)
    ensures LookedAt(irs, k) <==> k < Visited(irs, 0)
  {
  }

  /** The instruction gives v this type, or hands it on from a variable that has it in the end. */
  ghost predicate AskedBy(i: Instruction, t0: Types, t: Types, v: Var, ty: Type) {
    Gives(t0, i, v, ty) || exists x :: x in t && t[x] == ty && HandsOn(i, x, v)
  }

  /** Some instruction looked at asks that v has this type. */
  ghost predicate AskedFor(irs: seq<Instruction>, t0: Types, t: Types, v: Var, ty: Type) {
    exists k: nat :: LookedAt(irs, k) && AskedBy(irs[k], t0, t, v, ty)
  }

  /** What a run leaves behind, instruction by instruction: it ends normally exactly if every one
      looked at is satisfied, and raises exactly if one of them stops it; and a variable changes only
      from no integer to an integer type that some instruction asks for. */
  lemma ConvertedProgram(irs: seq<Instruction>, t0: Types)
    requires Declared(t0, irs)
    ensures var q := Fixed(t0, irs);
            && (q.ok <==> forall k: nat :: LookedAt(irs, k) ==> Satisfied(q.types, irs[k]))
            && (!q.ok <==> exists k: nat :: LookedAt(irs, k) && Stops(q.types, irs[k]))
            && (forall v :: v in t0 && q.types[v] != t0[v] ==>
                  !t0[v].Signed? && q.types[v].Signed? && AskedFor(irs, t0, q.types, v, q.types[v]))
  {
    var q, n := Fixed(t0, irs), Visited(irs, 0);
    DeclaredRules(t0, irs, n);
    SoundInitially(RuleSet(irs, n), t0);
    FixedIsExact(irs, t0, t0);
    SameKeysDeclared(t0, q.types, irs);
    forall k: nat ensures LookedAt(irs, k) <==> k < n { LookedAtIffVisited(irs, k); }
    forall k | 0 <= k < n
      ensures AllKnown(q.types, Rules(irs[k])) && (Met(q.types, irs[k]) <==> Satisfied(q.types, irs[k]))
      ensures Blocked(q.types, irs[k]) <==> Stops(q.types, irs[k])
    {
      assert AllKnown(q.types, Rules(irs[k]));
      MetIffSatisfied(q.types, irs[k]);
      BlockedIffStops(q.types, irs[k]);
    }
    hide Fixed, Met, Blocked, Satisfied, Stops, LookedAt, Rules, Declared, Gives, HandsOn;
    forall v | v in t0 && q.types[v] != t0[v]
      ensures !t0[v].Signed? && q.types[v].Signed? && AskedFor(irs, t0, q.types, v, q.types[v])
    {
      ChangedIsAskedFor(irs, t0, q.types, v);
    }
  }

  lemma ChangedIsAskedFor(irs: seq<Instruction>, t0: Types, t: Types, v: Var)
    requires Declared(t0, irs) && KnownRules(t0, RuleSet(irs, Visited(irs, 0)))
    requires Sound(RuleSet(irs, Visited(irs, 0)), t0, t) && v in t0 && v in t && t[v] != t0[v]
    ensures !t0[v].Signed? && t[v].Signed? && AskedFor(irs, t0, t, v, t[v])
  {
    var rules := RuleSet(irs, Visited(irs, 0));
    var r :| r in rules && Known(t, r) && Justifies(t0, t, r, v);
    var k, j :| 0 <= k < Visited(irs, 0) && 0 <= j < |Rules(irs[k])| && Rules(irs[k])[j] == r;
    LookedAtIffVisited(irs, k);
    hide Visited, Sound, RuleSet, LookedAt;
    assert AllKnown(t0, Rules(irs[k]));
    if r.source.TypeOf? { HandsOnIff(irs[k], r.source.v, v); } else { GivesIff(t0, irs[k], v, t[v]); }
    assert AskedBy(irs[k], t0, t, v, t[v]);
  }

  // ----- which operands become integers -----

  /** The set holds the initial integers and whatever an instruction gives an integer type or hands
      one on to from a member. */
  ghost predicate ClosedProgram(irs: seq<Instruction>, t0: Types, s: set<Var>) {
    && (forall v :: v in t0 && t0[v].Signed? ==> v in s)
    && (forall k: nat, x, v :: LookedAt(irs, k) && x in s && HandsOn(irs[k], x, v) ==> v in s)
    && (forall k: nat, v, bits :: LookedAt(irs, k) && Gives(t0, irs[k], v, Signed(bits)) ==> v in s)
  }

  /** The width starts at c[0] and is handed on along c to variables that are no integers. */
  ghost predicate Route(irs: seq<Instruction>, t0: Types, c: seq<Var>, bits: nat) {
    && c != [] && c[0] in t0
    && (if t0[c[0]].Signed? then t0[c[0]] == Signed(bits)
        else exists k: nat :: LookedAt(irs, k) && Gives(t0, irs[k], c[0], Signed(bits)))
    && forall j :: 0 <= j < |c| - 1 ==> Passes(irs, t0, c[j], c[j + 1])
  }

  ghost predicate Passes(irs: seq<Instruction>, t0: Types, x: Var, v: Var) {
    v in t0 && !t0[v].Signed? && exists k: nat :: LookedAt(irs, k) && HandsOn(irs[k], x, v)
  }

  /** The width can reach v. */
  ghost predicate Reaches(irs: seq<Instruction>, t0: Types, v: Var, bits: nat) {
    exists c :: Route(irs, t0, c, bits) && c[|c| - 1] == v
  }

  /** No array whose literal is looked at can itself become an integer. */
  ghost predicate ArraysKept(irs: seq<Instruction>, t0: Types) {
    forall k: nat, bits :: LookedAt(irs, k) && irs[k].InitArray? && irs[k].operands != [] ==>
      !Reaches(irs, t0, irs[k].lvalue, bits)
  }

  lemma FeedsIffPasses(irs: seq<Instruction>, t0: Types, x: Var, v: Var)
    ensures Feeds(RuleSet(irs, Visited(irs, 0)), t0, x, v) <==> Passes(irs, t0, x, v)
  {
    var rules := RuleSet(irs, Visited(irs, 0));
    if Feeds(rules, t0, x, v) {
      var r :| r in rules && r.source == TypeOf(x) && r.target == One(v);
      var k, j :| 0 <= k < Visited(irs, 0) && 0 <= j < |Rules(irs[k])| && Rules(irs[k])[j] == r;
      LookedAtIffVisited(irs, k);
      HandsOnIff(irs[k], x, v);
    }
    if Passes(irs, t0, x, v) {
      var k: nat :| LookedAt(irs, k) && HandsOn(irs[k], x, v);
      LookedAtIffVisited(irs, k);
      HandsOnIff(irs[k], x, v);
      var j :| 0 <= j < |Rules(irs[k])| && Rules(irs[k])[j].source == TypeOf(x) && Rules(irs[k])[j].target == One(v);
      assert Rules(irs[k])[j] in rules;
    }
  }

  lemma OriginIff(irs: seq<Instruction>, t0: Types, v: Var, bits: nat)
    requires Declared(t0, irs) && KnownRules(t0, RuleSet(irs, Visited(irs, 0))) && v in t0 && !t0[v].Signed?
    ensures Origin(RuleSet(irs, Visited(irs, 0)), t0, v, bits)
        <==> exists k: nat :: LookedAt(irs, k) && Gives(t0, irs[k], v, Signed(bits))
  {
    var rules := RuleSet(irs, Visited(irs, 0));
    if Origin(rules, t0, v, bits) {
      var r :| r in rules && Asks(t0, r, v, bits);
      var k, j :| 0 <= k < Visited(irs, 0) && 0 <= j < |Rules(irs[k])| && Rules(irs[k])[j] == r;
      LookedAtIffVisited(irs, k);
      GivesIff(t0, irs[k], v, Signed(bits));
    }
    if k: nat :| LookedAt(irs, k) && Gives(t0, irs[k], v, Signed(bits)) {
      LookedAtIffVisited(irs, k);
      var j := GivenAt(t0, irs[k], v, Signed(bits));
      assert Rules(irs[k])[j] in rules && Asks(t0, Rules(irs[k])[j], v, bits);
    }
  }

  lemma ChainIffRoute(irs: seq<Instruction>, t0: Types, c: seq<Var>, bits: nat)
    requires Declared(t0, irs) && KnownRules(t0, RuleSet(irs, Visited(irs, 0)))
    ensures Chain(RuleSet(irs, Visited(irs, 0)), t0, c, bits) <==> Route(irs, t0, c, bits)
  {
    hide Declared, KnownRules, RuleSet, Visited, Feeds, Passes, LookedAt, Gives;
    if c != [] && c[0] in t0 && !t0[c[0]].Signed? { OriginIff(irs, t0, c[0], bits); }
    forall j | 0 <= j < |c| - 1
      ensures Feeds(RuleSet(irs, Visited(irs, 0)), t0, c[j], c[j + 1]) <==> Passes(irs, t0, c[j], c[j + 1])
    {
      FeedsIffPasses(irs, t0, c[j], c[j + 1]);
    }
  }

  lemma DerivableIffReaches(irs: seq<Instruction>, t0: Types, v: Var, bits: nat)
    requires Declared(t0, irs) && KnownRules(t0, RuleSet(irs, Visited(irs, 0)))
    ensures Derivable(RuleSet(irs, Visited(irs, 0)), t0, v, bits) <==> Reaches(irs, t0, v, bits)
  {
    hide Declared, KnownRules, RuleSet, Visited, Chain, Route;
    forall c ensures Chain(RuleSet(irs, Visited(irs, 0)), t0, c, bits) <==> Route(irs, t0, c, bits) {
      ChainIffRoute(irs, t0, c, bits);
    }
  }

  lemma ArraysSafeIfKept(irs: seq<Instruction>, t0: Types)
    requires Declared(t0, irs) && KnownRules(t0, RuleSet(irs, Visited(irs, 0))) && ArraysKept(irs, t0)
    ensures ArraysSafe(RuleSet(irs, Visited(irs, 0)), t0)
  {
    var rules := RuleSet(irs, Visited(irs, 0));
    hide RuleSet, Visited, Declared, KnownRules, Reaches, Derivable, LookedAt;
    forall r, bits | r in rules && r.source.ElementOf? ensures !Derivable(rules, t0, r.source.v, bits) {
      var k := LiteralOf(irs, r);
      DerivableIffReaches(irs, t0, r.source.v, bits);
    }
  }

  lemma LiteralOf(irs: seq<Instruction>, r: Rule) returns (k: nat)
    requires r in RuleSet(irs, Visited(irs, 0)) && r.source.ElementOf?
    ensures LookedAt(irs, k) && irs[k].InitArray? && irs[k].operands != [] && irs[k].lvalue == r.source.v
  {
    var j;
    k, j :| 0 <= k < Visited(irs, 0) && 0 <= j < |Rules(irs[k])| && Rules(irs[k])[j] == r;
    LookedAtIffVisited(irs, k);
  }

  lemma ClosedIff(irs: seq<Instruction>, t0: Types, s: set<Var>)
    requires Declared(t0, irs) && KnownRules(t0, RuleSet(irs, Visited(irs, 0)))
    ensures Closed(RuleSet(irs, Visited(irs, 0)), t0, s) <==> ClosedProgram(irs, t0, s)
  {
    if Closed(RuleSet(irs, Visited(irs, 0)), t0, s) { ClosedIsClosed(irs, t0, s); }
    if ClosedProgram(irs, t0, s) { ProgramIsClosed(irs, t0, s); }
  }

  lemma ClosedIsClosed(irs: seq<Instruction>, t0: Types, s: set<Var>)
    requires Declared(t0, irs) && KnownRules(t0, RuleSet(irs, Visited(irs, 0)))
    requires Closed(RuleSet(irs, Visited(irs, 0)), t0, s)
    ensures ClosedProgram(irs, t0, s)
  {
    var rules := RuleSet(irs, Visited(irs, 0));
    forall k: nat, x, v | LookedAt(irs, k) && x in s && HandsOn(irs[k], x, v) ensures v in s {
      LookedAtIffVisited(irs, k);
      var j := HandedAt(irs[k], x, v);
      assert Rules(irs[k])[j] in rules && ClosedUnder(t0, s, Rules(irs[k])[j]);
    }
    forall k: nat, v, bits | LookedAt(irs, k) && Gives(t0, irs[k], v, Signed(bits)) ensures v in s {
      LookedAtIffVisited(irs, k);
      var j := GivenAt(t0, irs[k], v, Signed(bits));
      assert Rules(irs[k])[j] in rules && ClosedUnder(t0, s, Rules(irs[k])[j]);
    }
  }

  lemma ProgramIsClosed(irs: seq<Instruction>, t0: Types, s: set<Var>)
    requires Declared(t0, irs) && KnownRules(t0, RuleSet(irs, Visited(irs, 0))) && ClosedProgram(irs, t0, s)
    ensures Closed(RuleSet(irs, Visited(irs, 0)), t0, s)
  {
    var rules := RuleSet(irs, Visited(irs, 0));
    forall r | r in rules ensures ClosedUnder(t0, s, r) {
      if r.target.One? && Demands(t0, s, r.source) { DemandIsMember(irs, t0, s, r); }
    }
  }

  lemma DemandIsMember(irs: seq<Instruction>, t0: Types, s: set<Var>, r: Rule)
    requires Declared(t0, irs) && ClosedProgram(irs, t0, s) && r in RuleSet(irs, Visited(irs, 0)) && Known(t0, r)
    requires r.target.One? && Demands(t0, s, r.source)
    ensures r.target.v in s
  {
    var v := r.target.v;
    var k, j :| 0 <= k < Visited(irs, 0) && 0 <= j < |Rules(irs[k])| && Rules(irs[k])[j] == r;
    LookedAtIffVisited(irs, k);
    assert AllKnown(t0, Rules(irs[k]));
    hide Visited, LookedAt, RuleSet, Rules;
    if r.source.TypeOf? {
      HandsOnIff(irs[k], r.source.v, v);
      assert HandsOn(irs[k], r.source.v, v);
    } else {
      var bits := SourceType(t0, r.source).bits;
      GivesIff(t0, irs[k], v, Signed(bits));
      assert Gives(t0, irs[k], v, Signed(bits));
    }
  }

  /** After a normal end the integers are the least set closed in this sense. */
  lemma IntegersAreForced(irs: seq<Instruction>, t0: Types)
    requires Declared(t0, irs) && Fixed(t0, irs).ok && ArraysKept(irs, t0)
    ensures ClosedProgram(irs, t0, Integers(Fixed(t0, irs).types))
    ensures forall s :: ClosedProgram(irs, t0, s) ==> Integers(Fixed(t0, irs).types) <= s
  {
    hide Fixed, ArraysKept, ClosedProgram, Closed, Integers;
    DeclaredRules(t0, irs, Visited(irs, 0));
    ArraysSafeIfKept(irs, t0);
    FixedIsFinished(irs, t0);
    IntegersAreLeast(irs, t0, Fixed(t0, irs).types);
    ClosedIff(irs, t0, Integers(Fixed(t0, irs).types));
    forall s | ClosedProgram(irs, t0, s) ensures Integers(Fixed(t0, irs).types) <= s { ClosedIff(irs, t0, s); }
  }

  // ----- widths -----

  /** Every operand the pass has typed has every width it is asked to have. */
  ghost predicate WidthsMatch(irs: seq<Instruction>, t0: Types, t: Types) {
    forall v, ty: Type :: v in t && v in t0 && t[v] != t0[v] && ty.Signed? && AskedFor(irs, t0, t, v, ty) ==> t[v] == ty
  }

  /** At most one width can reach each variable that is no integer. */
  ghost predicate OneWidthEach(irs: seq<Instruction>, t0: Types) {
    forall v, a, b :: v in t0 && !t0[v].Signed? && Reaches(irs, t0, v, a) && Reaches(irs, t0, v, b) ==> a == b
  }

  lemma DemandIffAskedFor(irs: seq<Instruction>, t0: Types, t: Types, v: Var, ty: Type)
    requires Declared(t0, irs) && Finished(irs, t0, t) && ty.Signed?
    requires KnownRules(t0, RuleSet(irs, Visited(irs, 0))) && ArraysSafe(RuleSet(irs, Visited(irs, 0)), t0)
    ensures AskedFor(irs, t0, t, v, ty)
        <==> exists r :: DemandOn(RuleSet(irs, Visited(irs, 0)), t, v, r) && SourceType(t, r.source) == ty
  {
    if AskedFor(irs, t0, t, v, ty) { var r := AskedIsDemanded(irs, t0, t, v, ty); }
    if r :| DemandOn(RuleSet(irs, Visited(irs, 0)), t, v, r) && SourceType(t, r.source) == ty {
      DemandedIsAsked(irs, t0, t, v, r);
    }
  }

  lemma AskedIsDemanded(irs: seq<Instruction>, t0: Types, t: Types, v: Var, ty: Type) returns (r: Rule)
    requires Declared(t0, irs) && Finished(irs, t0, t) && ty.Signed? && AskedFor(irs, t0, t, v, ty)
    requires KnownRules(t0, RuleSet(irs, Visited(irs, 0))) && ArraysSafe(RuleSet(irs, Visited(irs, 0)), t0)
    ensures DemandOn(RuleSet(irs, Visited(irs, 0)), t, v, r) && SourceType(t, r.source) == ty
  {
    var rules := RuleSet(irs, Visited(irs, 0));
    var k: nat :| LookedAt(irs, k) && AskedBy(irs[k], t0, t, v, ty);
    LookedAtIffVisited(irs, k);
    assert AllKnown(t0, Rules(irs[k]));
    var j: nat;
    if Gives(t0, irs[k], v, ty) {
      j := GivenAt(t0, irs[k], v, ty);
    } else {
      var x :| x in t && t[x] == ty && HandsOn(irs[k], x, v);
      j := HandedAt(irs[k], x, v);
    }
    r := Rules(irs[k])[j];
    assert r in rules;
    FinishedRule(irs, t0, t, r);
    ArrayKept(rules, t0, t, r);
  }

  lemma DemandedIsAsked(irs: seq<Instruction>, t0: Types, t: Types, v: Var, r: Rule)
    requires Declared(t0, irs) && Finished(irs, t0, t) && DemandOn(RuleSet(irs, Visited(irs, 0)), t, v, r)
    requires KnownRules(t0, RuleSet(irs, Visited(irs, 0))) && ArraysSafe(RuleSet(irs, Visited(irs, 0)), t0)
    ensures AskedFor(irs, t0, t, v, SourceType(t, r.source))
  {
    var rules, ty := RuleSet(irs, Visited(irs, 0)), SourceType(t, r.source);
    var k, j :| 0 <= k < Visited(irs, 0) && 0 <= j < |Rules(irs[k])| && Rules(irs[k])[j] == r;
    LookedAtIffVisited(irs, k);
    assert AllKnown(t0, Rules(irs[k])) && Known(t0, r);
    ArrayKept(rules, t0, t, r);
    if r.source.TypeOf? { HandsOnIff(irs[k], r.source.v, v); } else { GivesIff(t0, irs[k], v, ty); }
    assert AskedBy(irs[k], t0, t, v, ty);
  }

  /** After a normal end all widths match exactly if, in the program as given, at most one can reach
      each variable. */
  lemma WidthsMatchIffOneEach(irs: seq<Instruction>, t0: Types)
    requires Declared(t0, irs) && Fixed(t0, irs).ok && ArraysKept(irs, t0)
    ensures WidthsMatch(irs, t0, Fixed(t0, irs).types) <==> OneWidthEach(irs, t0)
  {
    var rules, t := RuleSet(irs, Visited(irs, 0)), Fixed(t0, irs).types;
    hide Fixed, ArraysKept, Visited, RuleSet, Declared, AskedFor, Reaches, Derivable, DemandOn, ArraysSafe, KnownRules;
    DeclaredRules(t0, irs, Visited(irs, 0));
    ArraysSafeIfKept(irs, t0);
    FixedIsFinished(irs, t0);
    SameVariables(irs, t0, t);
    WidthsMatchIffUnique(irs, t0, t);
    forall v, ty: Type | ty.Signed?
      ensures AskedFor(irs, t0, t, v, ty) <==> exists r :: DemandOn(rules, t, v, r) && SourceType(t, r.source) == ty
    {
      DemandIffAskedFor(irs, t0, t, v, ty);
    }
    forall v, a ensures Derivable(rules, t0, v, a) <==> Reaches(irs, t0, v, a) { DerivableIffReaches(irs, t0, v, a); }
    DemandsAreWidths(irs, t0, t);
  }

  lemma SameVariables(irs: seq<Instruction>, t0: Types, t: Types)
    requires Declared(t0, irs) && Finished(irs, t0, t)
    ensures t.Keys == t0.Keys
  {
  }

  lemma DemandsAreWidths(irs: seq<Instruction>, t0: Types, t: Types)
    requires t.Keys == t0.Keys
    requires forall v, ty: Type :: ty.Signed? ==>
               (AskedFor(irs, t0, t, v, ty)
                <==> exists r :: DemandOn(RuleSet(irs, Visited(irs, 0)), t, v, r) && SourceType(t, r.source) == ty)
    ensures WidthsMatch(irs, t0, t) <==> DemandsMet(RuleSet(irs, Visited(irs, 0)), t0, t)
  {
  }
}
