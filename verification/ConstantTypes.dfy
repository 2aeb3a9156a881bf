/**
 * Late typing of operands: an integer type demanded by an assignment, an
 * operation, a call, a structure or an array literal is written onto operands
 * that do not have a signed integer type yet, pass after pass until nothing
 * changes. Operands are shared objects, so a type written for one instruction
 * is seen by all others; variables are numbered and their types are the state.
 */
module ConstantTypes {

  type Var = nat

  /** `Signed` is the family int8 to int256. The last two have no inner `.type`. */
  datatype Type =
    | Signed(bits: nat)
    | Elementary(name: string)
    | Array(elem: Type)
    | Named(name: string)
    | Alias(name: string)
    | Opaque

  /** An argument can be a nested list literal, which has no type at all. */
  datatype Argument = One(v: Var) | Several

  datatype Rvalue = Value(v: Var) | FunctionName | TupleValue

  /** A public state variable is called through its getter, whose key types are given. */
  datatype Callee = Unresolved | Parameters(ps: seq<Var>) | Getter(keys: seq<Type>)

  datatype Instruction =
    | Assignment(lvalue: Var, rvalue: Rvalue)
    | Binary(lvalue: Var, left: Var, right: Var)
    | Call(callee: Callee, args: seq<Argument>)
    | NewStructure(fields: seq<Var>, args: seq<Argument>)
    | InitArray(lvalue: Var, operands: seq<Var>)
    | Other

  // ---------------------------------------------------------------- the rules

  datatype Source = TypeOf(v: Var) | ElementOf(v: Var) | Given(t: Type)

  /** If the source is a signed integer type, so must be the target's. */
  datatype Rule = Rule(source: Source, target: Argument, aliasOk: bool)

  type Types = map<Var, Type>

  function Zip(sources: seq<Source>, args: seq<Argument>): (r: seq<Rule>)
    requires |args| <= |sources|
    ensures |r| == |args|
  {
    seq(|args|, k requires 0 <= k < |args| => Rule(sources[k], args[k], false))
  }

  function Each(source: Source, operands: seq<Var>): (r: seq<Rule>)
    ensures |r| == |operands|
  {
    seq(|operands|, k requires 0 <= k < |operands| => Rule(source, One(operands[k]), false))
  }

  function TypesOf(vs: seq<Var>): (r: seq<Source>)
    ensures |r| == |vs|
  {
    seq(|vs|, k requires 0 <= k < |vs| => TypeOf(vs[k]))
  }

  function GivenTypes(ts: seq<Type>): (r: seq<Source>)
    ensures |r| == |ts|
  {
    seq(|ts|, k requires 0 <= k < |ts| => Given(ts[k]))
  }

  predicate ArityOk(i: Instruction) {
    match i
    case Call(Parameters(ps), args) => |ps| == |args|
    case Call(Getter(keys), args) => |keys| == |args|
    case NewStructure(fields, args) => |args| <= |fields|
    case _ => true
  }

  function Shorter(s: seq<Argument>, n: nat): seq<Argument> {
    if |s| <= n then s else s[..n]
  }

  function Rules(i: Instruction): seq<Rule> {
    match i
    case Assignment(l, Value(r)) => [Rule(TypeOf(l), One(r), true)]
    case Assignment(_, _) => []
    case Binary(l, a, b) => Each(TypeOf(l), [a, b])
    case Call(Parameters(ps), args) => if |ps| == |args| then Zip(TypesOf(ps), args) else []
    case Call(Getter(keys), args) => if |keys| == |args| then Zip(GivenTypes(keys), args) else []
    case Call(Unresolved, _) => []
    case NewStructure(fields, args) => Zip(TypesOf(fields), Shorter(args, |fields|))
    case InitArray(l, operands) => Each(ElementOf(l), operands)
    case Other => []
  }

  predicate Known(t: Types, r: Rule) {
    (r.source.Given? || r.source.v in t) && (r.target.One? ==> r.target.v in t)
  }

  function SourceType(t: Types, s: Source): Type
    requires s.Given? || s.v in t
  {
    match s
    case TypeOf(v) => t[v]
    case ElementOf(v) => if t[v].Array? then t[v].elem else Opaque
    case Given(ty) => ty
  }

  predicate Holds(t: Types, r: Rule)
    requires Known(t, r)
  {
    SourceType(t, r.source).Signed? ==> r.target.One? && t[r.target.v].Signed?
  }

  /** Reading the inner type of this operand raises. */
  predicate Unreadable(ty: Type, aliasOk: bool) {
    ty.Opaque? || (ty.Alias? && !aliasOk)
  }

  predicate Raises(t: Types, r: Rule)
    requires Known(t, r)
  {
    SourceType(t, r.source).Signed? && (r.target.Several? || Unreadable(t[r.target.v], r.aliasOk))
  }

  ghost predicate AllKnown(t: Types, rules: seq<Rule>) {
    forall k :: 0 <= k < |rules| ==> Known(t, rules[k])
  }

  /** The first `k` rules hold. */
  ghost predicate HoldUpTo(t: Types, rules: seq<Rule>, k: nat)
    requires AllKnown(t, rules) && k <= |rules|
  {
    forall j :: 0 <= j < k ==> Holds(t, rules[j])
  }

  ghost predicate Declared(t: Types, irs: seq<Instruction>) {
    forall i :: 0 <= i < |irs| ==> AllKnown(t, Rules(irs[i]))
  }

  ghost predicate Met(t: Types, i: Instruction)
    requires AllKnown(t, Rules(i))
  {
    ArityOk(i) && HoldUpTo(t, Rules(i), |Rules(i)|)
  }

  ghost predicate Blocked(t: Types, i: Instruction)
    requires AllKnown(t, Rules(i))
  {
    !ArityOk(i) || exists k :: 0 <= k < |Rules(i)| && Raises(t, Rules(i)[k])
  }

  predicate IsUnresolved(i: Instruction) {
    i.Call? && i.callee.Unresolved?
  }

  /** How many instructions a pass looks at: it stops at the first unresolved call. */
  function Visited(irs: seq<Instruction>, from: nat): (n: nat)
    requires from <= |irs|
    ensures from <= n <= |irs|
    ensures forall i :: from <= i < n ==> !IsUnresolved(irs[i])
    ensures n < |irs| ==> IsUnresolved(irs[n])
    decreases |irs| - from
  {
    if from == |irs| || IsUnresolved(irs[from]) then from else Visited(irs, from + 1)
  }

  // ---------------------------------------------------------------- the rules applied in order

  /** The types so far, and whether no operand has raised yet. */
  datatype Progress = Progress(types: Types, ok: bool)

  /** The first rule to reach an operand decides its type. */
  function ApplyRule(p: Progress, r: Rule): (q: Progress)
    requires Known(p.types, r)
    ensures q.types.Keys == p.types.Keys
  {
    var demanded := SourceType(p.types, r.source);
    if !p.ok || !demanded.Signed? then p
    else if r.target.Several? || Unreadable(p.types[r.target.v], r.aliasOk) then p.(ok := false)
    else if p.types[r.target.v].Signed? then p
    else Progress(p.types[r.target.v := demanded], true)
  }

  /** The first `k` rules. */
  ghost function ApplyRules(p: Progress, rules: seq<Rule>, k: nat): (q: Progress)
    requires AllKnown(p.types, rules) && k <= |rules|
    ensures q.types.Keys == p.types.Keys
  {
    if k == 0 then p else ApplyRule(ApplyRules(p, rules, k - 1), rules[k - 1])
  }

  ghost function ApplyInstruction(p: Progress, i: Instruction): (q: Progress)
    requires AllKnown(p.types, Rules(i))
    ensures q.types.Keys == p.types.Keys
  {
    var q := ApplyRules(p, Rules(i), |Rules(i)|);
    q.(ok := q.ok && ArityOk(i))
  }

  /** The first `n` instructions. */
  ghost function ApplyAll(p: Progress, irs: seq<Instruction>, n: nat): (q: Progress)
    requires Declared(p.types, irs) && n <= |irs|
    ensures q.types.Keys == p.types.Keys
  {
    if n == 0 then p
    else
      var q := ApplyAll(p, irs, n - 1);
      SameKeysKnown(p.types, q.types, irs, n - 1);
      if q.ok then ApplyInstruction(q, irs[n - 1]) else q
  }

  lemma SameKeysKnown(t: Types, u: Types, irs: seq<Instruction>, i: nat)
    requires t.Keys == u.Keys && Declared(t, irs) && i < |irs|
    ensures AllKnown(u, Rules(irs[i]))
  {
    assert AllKnown(t, Rules(irs[i]));
  }

  lemma SameKeysDeclared(t: Types, u: Types, irs: seq<Instruction>)
    requires t.Keys == u.Keys && Declared(t, irs)
    ensures Declared(u, irs)
  {
    forall i | 0 <= i < |irs| ensures AllKnown(u, Rules(irs[i])) {
      SameKeysKnown(t, u, irs, i);
    }
  }

  /** One pass, up to the first unresolved call. */
  ghost function OnePass(t: Types, irs: seq<Instruction>): (q: Progress)
    requires Declared(t, irs)
    ensures q.types.Keys == t.Keys
  {
    ApplyAll(Progress(t, true), irs, Visited(irs, 0))
  }

  /** Termination measure: the variables without a signed integer type. */
  ghost function Rest(t: Types): set<Var> {
    set v | v in t && !t[v].Signed?
  }

  lemma RetypeShrinks(t: Types, v: Var, ty: Type)
    requires v in t && !t[v].Signed? && ty.Signed?
    ensures |Rest(t[v := ty])| < |Rest(t)|
  {
    assert Rest(t[v := ty]) == Rest(t) - {v};
  }

  /** Nothing changed, or fewer variables are left. */
  ghost predicate Advanced(before: Types, after: Types) {
    after == before || |Rest(after)| < |Rest(before)|
  }

  lemma {:induction false} RulesAdvance(p: Progress, rules: seq<Rule>, k: nat)
    requires AllKnown(p.types, rules) && k <= |rules|
    ensures Advanced(p.types, ApplyRules(p, rules, k).types)
  {
    if k > 0 {
      RulesAdvance(p, rules, k - 1);
      var q, r := ApplyRules(p, rules, k - 1), rules[k - 1];
      assert Known(q.types, r);
      if ApplyRule(q, r).types != q.types {
        RetypeShrinks(q.types, r.target.v, SourceType(q.types, r.source));
      }
    }
  }

  lemma {:induction false} AllAdvance(p: Progress, irs: seq<Instruction>, n: nat)
    requires Declared(p.types, irs) && n <= |irs|
    ensures Advanced(p.types, ApplyAll(p, irs, n).types)
  {
    if n > 0 {
      AllAdvance(p, irs, n - 1);
      var q := ApplyAll(p, irs, n - 1);
      SameKeysKnown(p.types, q.types, irs, n - 1);
      RulesAdvance(q, Rules(irs[n - 1]), |Rules(irs[n - 1])|);
    }
  }

  /** Passes until one changes nothing or raises. */
  ghost function Fixed(t: Types, irs: seq<Instruction>): (q: Progress)
    requires Declared(t, irs)
    ensures q.types.Keys == t.Keys
    decreases |Rest(t)|
  {
    var q := OnePass(t, irs);
    if !q.ok || q.types == t then q
    else
      AllAdvance(Progress(t, true), irs, Visited(irs, 0));
      SameKeysDeclared(t, q.types, irs);
      Fixed(q.types, irs)
  }

  // ---------------------------------------------------------------- the pass

  class ConstantTypes {
    var types: Types

    constructor (t: Types)
      ensures types == t
    {
      types := t;
    }

    /** One operand against the type its context demands. */
    method Retype(source: Source, a: Argument, aliasOk: bool) returns (changed: bool, ok: bool)
      requires Known(types, Rule(source, a, aliasOk))
      modifies this
      ensures Progress(types, ok) == ApplyRule(Progress(old(types), true), Rule(source, a, aliasOk))
      ensures changed <==> types != old(types)
    {
      changed, ok := false, true;
      var demanded := SourceType(types, source);
      if demanded.Signed? {
        if a.Several? || Unreadable(types[a.v], aliasOk) {
          return false, false;
        }
        if !types[a.v].Signed? {
          types := types[a.v := demanded];
          changed := true;
        }
      }
    }

    /** All operands of one instruction against a single source. */
    method RetypeEach(source: Source, operands: seq<Var>) returns (changed: bool, ok: bool)
      requires AllKnown(types, Each(source, operands))
      modifies this
      ensures Progress(types, ok)
           == ApplyRules(Progress(old(types), true), Each(source, operands), |operands|)
      ensures changed <==> types != old(types)
    {
      changed, ok := false, true;
      ghost var rules := Each(source, operands);
      var k := 0;
      while k < |operands|
        invariant 0 <= k <= |operands| && types.Keys == old(types).Keys
        invariant Progress(types, true) == ApplyRules(Progress(old(types), true), rules, k)
        invariant if changed then |Rest(types)| < |Rest(old(types))| else types == old(types)
        invariant ok
      {
        assert Known(old(types), rules[k]);
        ghost var before := types;
        var c;
        c, ok := Retype(source, One(operands[k]), false);
        changed := changed || c;
        if c { RetypeShrinks(before, operands[k], types[operands[k]]); }
        if !ok {
          StaysRaised(Progress(old(types), true), rules, k + 1, |operands|);
          return;
        }
        k := k + 1;
      }
    }

    /** Each argument against the source at its own position. */
    method RetypeArguments(sources: seq<Source>, args: seq<Argument>) returns (changed: bool, ok: bool)
      requires |args| <= |sources| && AllKnown(types, Zip(sources, args))
      modifies this
      ensures Progress(types, ok) == ApplyRules(Progress(old(types), true), Zip(sources, args), |args|)
      ensures changed <==> types != old(types)
    {
      changed, ok := false, true;
      ghost var rules := Zip(sources, args);
      var k := 0;
      while k < |args|
        invariant 0 <= k <= |args| && types.Keys == old(types).Keys
        invariant Progress(types, true) == ApplyRules(Progress(old(types), true), rules, k)
        invariant if changed then |Rest(types)| < |Rest(old(types))| else types == old(types)
        invariant ok
      {
        assert Known(old(types), rules[k]);
        ghost var before := types;
        var c;
        c, ok := Retype(sources[k], args[k], false);
        changed := changed || c;
        if c { RetypeShrinks(before, args[k].v, types[args[k].v]); }
        if !ok {
          StaysRaised(Progress(old(types), true), rules, k + 1, |args|);
          return;
        }
        k := k + 1;
      }
    }

    /** The branches of the loop body, one per kind of instruction. */
    method Visit(ir: Instruction) returns (changed: bool, ok: bool)
      requires AllKnown(types, Rules(ir)) && !IsUnresolved(ir)
      modifies this
      ensures Progress(types, ok) == ApplyInstruction(Progress(old(types), true), ir)
      ensures changed <==> types != old(types)
    {
      changed, ok := false, true;
      match ir
      case Assignment(l, rvalue) =>
        if rvalue.Value? {
          assert Known(types, Rules(ir)[0]);
          assert ApplyRules(Progress(types, true), Rules(ir), 0) == Progress(types, true);
          changed, ok := Retype(TypeOf(l), One(rvalue.v), true);
        }
      case Binary(l, left, right) =>
        changed, ok := RetypeEach(TypeOf(l), [left, right]);
      case Call(callee, args) =>
        var sources := if callee.Getter? then GivenTypes(callee.keys) else TypesOf(callee.ps);
        if |sources| != |args| {
          return false, false;
        }
        changed, ok := RetypeArguments(sources, args);
      case NewStructure(fields, args) =>
        changed, ok := RetypeArguments(TypesOf(fields), Shorter(args, |fields|));
        ok := ok && |args| <= |fields|;
      case InitArray(l, operands) =>
        changed, ok := RetypeEach(ElementOf(l), operands);
      case Other =>
    }

    /** One pass over the instructions, up to the first unresolved call. */
    method Pass(irs: seq<Instruction>) returns (changed: bool, ok: bool)
      requires Declared(types, irs)
      modifies this
      ensures Declared(types, irs)
      ensures Progress(types, ok) == OnePass(old(types), irs)
      ensures changed <==> types != old(types)
    {
      hide Rules, AllKnown, ApplyRules, Rest;
      changed, ok := false, true;
      ghost var start := Progress(types, true);
      var i := 0;
      while i < |irs|
        invariant 0 <= i <= Visited(irs, 0) && ok
        invariant types.Keys == start.types.Keys && Declared(types, irs)
        invariant Progress(types, true) == ApplyAll(start, irs, i)
        invariant if changed then |Rest(types)| < |Rest(start.types)| else types == start.types
      {
        if IsUnresolved(irs[i]) {
          break;
        }
        ghost var before := types;
        var c;
        c, ok := Visit(irs[i]);
        RulesAdvance(Progress(before, true), Rules(irs[i]), |Rules(irs[i])|);
        changed := changed || c;
        SameKeysDeclared(before, types, irs);
        if !ok {
          AllStayRaised(start, irs, i + 1, Visited(irs, 0));
          return;
        }
        i := i + 1;
      }
    }

    /** Passes until nothing changes; it ends because integers never change again. */
    method Convert(irs: seq<Instruction>) returns (ok: bool)
      requires Declared(types, irs)
      modifies this
      ensures Progress(types, ok) == Fixed(old(types), irs)
    {
      ok := true;
      var changed := true;
      while changed
        invariant ok && Declared(types, irs)
        invariant if changed then Fixed(types, irs) == Fixed(old(types), irs)
                  else Progress(types, true) == Fixed(old(types), irs)
        decreases |Rest(types)|, changed
      {
        AllAdvance(Progress(types, true), irs, Visited(irs, 0));
        changed, ok := Pass(irs);
        if !ok {
          return;
        }
      }
    }
  }

  /** Once an operand has raised nothing more happens. */
  lemma {:induction false} StaysRaised(p: Progress, rules: seq<Rule>, k: nat, n: nat)
    requires AllKnown(p.types, rules) && k <= n <= |rules| && !ApplyRules(p, rules, k).ok
    ensures ApplyRules(p, rules, n) == ApplyRules(p, rules, k)
  {
    if k < n { StaysRaised(p, rules, k, n - 1); }
  }

  lemma {:induction false} AllStayRaised(p: Progress, irs: seq<Instruction>, k: nat, n: nat)
    requires Declared(p.types, irs) && k <= n <= |irs| && !ApplyAll(p, irs, k).ok
    ensures ApplyAll(p, irs, n) == ApplyAll(p, irs, k)
  {
    if k < n { AllStayRaised(p, irs, k, n - 1); }
  }

  // ---------------------------------------------------------------- what a run keeps

  /** The rules of the first `n` instructions. */
  ghost function RuleSet(irs: seq<Instruction>, n: nat): set<Rule>
    requires n <= |irs|
  {
    set i, k | 0 <= i < n && 0 <= k < |Rules(irs[i])| :: Rules(irs[i])[k]
  }

  ghost predicate KnownRules(t: Types, rules: set<Rule>) {
    forall r :: r in rules ==> Known(t, r)
  }

  lemma DeclaredRules(t: Types, irs: seq<Instruction>, n: nat)
    requires Declared(t, irs) && n <= |irs|
    ensures KnownRules(t, RuleSet(irs, n))
  {
    forall r | r in RuleSet(irs, n) ensures Known(t, r) {
      var i, k :| 0 <= i < n && 0 <= k < |Rules(irs[i])| && Rules(irs[i])[k] == r;
      assert AllKnown(t, Rules(irs[i]));
    }
  }

  /** An integer type `v` has from the start or is asked for without looking at another operand. */
  ghost predicate Origin(rules: set<Rule>, t0: Types, v: Var, bits: nat)
    requires KnownRules(t0, rules)
  {
    && v in t0
    && if t0[v].Signed? then t0[v] == Signed(bits)
       else exists r :: r in rules && Asks(t0, r, v, bits)
  }

  predicate Asks(t0: Types, r: Rule, v: Var, bits: nat)
    requires Known(t0, r)
  {
    r.target == One(v) && !r.source.TypeOf? && SourceType(t0, r.source) == Signed(bits)
  }

  /** A rule hands the type of `x` on to `v`, which is no integer yet. */
  ghost predicate Feeds(rules: set<Rule>, t0: Types, x: Var, v: Var) {
    v in t0 && !t0[v].Signed? && exists r :: r in rules && r.source == TypeOf(x) && r.target == One(v)
  }

  ghost predicate Chain(rules: set<Rule>, t0: Types, c: seq<Var>, bits: nat)
    requires KnownRules(t0, rules)
  {
    && c != [] && Origin(rules, t0, c[0], bits)
    && forall i :: 0 <= i < |c| - 1 ==> Feeds(rules, t0, c[i], c[i + 1])
  }

  /** The width can reach `v` along the rules, before any pass is run. */
  ghost predicate Derivable(rules: set<Rule>, t0: Types, v: Var, bits: nat)
    requires KnownRules(t0, rules)
  {
    exists c :: Chain(rules, t0, c, bits) && c[|c| - 1] == v
  }

  lemma OriginIsDerivable(rules: set<Rule>, t0: Types, v: Var, bits: nat)
    requires KnownRules(t0, rules) && Origin(rules, t0, v, bits)
    ensures Derivable(rules, t0, v, bits)
  {
    assert Chain(rules, t0, [v], bits);
  }

  lemma FeedIsDerivable(rules: set<Rule>, t0: Types, x: Var, v: Var, bits: nat)
    requires KnownRules(t0, rules) && Derivable(rules, t0, x, bits) && Feeds(rules, t0, x, v)
    ensures Derivable(rules, t0, v, bits)
  {
    var c :| Chain(rules, t0, c, bits) && c[|c| - 1] == x;
    assert Chain(rules, t0, c + [v], bits);
  }

  /** The set contains the initial integers and whatever the rules derive from its members. */
  ghost predicate Closed(rules: set<Rule>, t0: Types, s: set<Var>)
    requires KnownRules(t0, rules)
  {
    && (forall v :: v in t0 && t0[v].Signed? ==> v in s)
    && forall r :: r in rules ==> ClosedUnder(t0, s, r)
  }

  ghost predicate ClosedUnder(t0: Types, s: set<Var>, r: Rule)
    requires Known(t0, r)
  {
    r.target.One? && Demands(t0, s, r.source) ==> r.target.v in s
  }

  predicate Demands(t0: Types, s: set<Var>, source: Source)
    requires source.Given? || source.v in t0
  {
    if source.TypeOf? then source.v in s else SourceType(t0, source).Signed?
  }

  lemma {:induction false} ChainStaysClosed(rules: set<Rule>, t0: Types, s: set<Var>, c: seq<Var>, bits: nat, k: nat)
    requires KnownRules(t0, rules) && Closed(rules, t0, s) && Chain(rules, t0, c, bits) && k < |c|
    ensures c[k] in s
  {
    if k == 0 {
      if !t0[c[0]].Signed? {
        var r :| r in rules && Asks(t0, r, c[0], bits);
        assert ClosedUnder(t0, s, r);
      }
    } else {
      ChainStaysClosed(rules, t0, s, c, bits, k - 1);
      assert Feeds(rules, t0, c[k - 1], c[k]);
      var r :| r in rules && r.source == TypeOf(c[k - 1]) && r.target == One(c[k]);
      assert ClosedUnder(t0, s, r);
    }
  }

  /** Whatever can become an integer lies in every closed set. */
  lemma DerivableIsInside(rules: set<Rule>, t0: Types, s: set<Var>, v: Var, bits: nat)
    requires KnownRules(t0, rules) && Closed(rules, t0, s) && Derivable(rules, t0, v, bits)
    ensures v in s
  {
    var c :| Chain(rules, t0, c, bits) && c[|c| - 1] == v;
    ChainStaysClosed(rules, t0, s, c, bits, |c| - 1);
  }

  function Evidence(t0: Types, t: Types, s: Source): Type
    requires t0.Keys == t.Keys && (s.Given? || s.v in t)
  {
    if s.ElementOf? then SourceType(t0, s) else SourceType(t, s)
  }

  ghost predicate Justifies(t0: Types, t: Types, r: Rule, v: Var)
    requires t0.Keys == t.Keys && Known(t, r)
  {
    r.target == One(v) && v in t && Evidence(t0, t, r.source) == t[v]
  }

  /** Some visited rule demands exactly the type the variable now has. */
  ghost predicate Justified(rules: set<Rule>, t0: Types, t: Types, v: Var)
    requires KnownRules(t0, rules) && t0.Keys == t.Keys
  {
    exists r :: r in rules && Known(t, r) && Justifies(t0, t, r, v)
  }

  /**
   * Only non-integers were changed, only into integers, each into a type some
   * rule demands, and every integer type is derivable from the start.
   */
  ghost predicate Sound(rules: set<Rule>, t0: Types, t: Types)
    requires KnownRules(t0, rules)
  {
    && t.Keys == t0.Keys
    && (forall v :: v in t && t[v] != t0[v] ==> !t0[v].Signed? && t[v].Signed? && Justified(rules, t0, t, v))
    && (forall v :: v in t && t[v].Signed? ==> Derivable(rules, t0, v, t[v].bits))
  }

  lemma SoundInitially(rules: set<Rule>, t0: Types)
    requires KnownRules(t0, rules)
    ensures Sound(rules, t0, t0)
  {
    forall v | v in t0 && t0[v].Signed? ensures Derivable(rules, t0, v, t0[v].bits) {
      OriginIsDerivable(rules, t0, v, t0[v].bits);
    }
  }

  lemma RetypeKeepsJustified(rules: set<Rule>, t0: Types, t: Types, v: Var, ty: Type, w: Var)
    requires KnownRules(t0, rules) && t.Keys == t0.Keys
    requires v in t && !t[v].Signed? && w in t && w != v && t[w].Signed? && Justified(rules, t0, t, w)
    ensures Justified(rules, t0, t[v := ty], w)
  {
    var r :| r in rules && Known(t, r) && Justifies(t0, t, r, w);
    var u := t[v := ty];
    assert u.Keys == t.Keys && Known(u, r);
    assert Justifies(t0, u, r, w);
  }

  /** A rule that fires passes on a derivable width. */
  lemma FiredIsDerivable(rules: set<Rule>, t0: Types, t: Types, r: Rule)
    requires KnownRules(t0, rules) && Sound(rules, t0, t) && r in rules && Known(t, r) && r.target.One?
    requires SourceType(t, r.source).Signed? && !t0[r.target.v].Signed?
    ensures Derivable(rules, t0, r.target.v, SourceType(t, r.source).bits)
  {
    var v, bits := r.target.v, SourceType(t, r.source).bits;
    if r.source.TypeOf? {
      assert Feeds(rules, t0, r.source.v, v);
      FeedIsDerivable(rules, t0, r.source.v, v, bits);
    } else {
      assert Asks(t0, r, v, bits);
      OriginIsDerivable(rules, t0, v, bits);
    }
  }

  /** A single retyping keeps the invariant of a run. */
  lemma RetypeIsSound(rules: set<Rule>, t0: Types, t: Types, r: Rule)
    requires KnownRules(t0, rules) && Sound(rules, t0, t) && r in rules && Known(t, r) && r.target.One?
    requires SourceType(t, r.source).Signed? && !t[r.target.v].Signed?
    ensures Sound(rules, t0, t[r.target.v := SourceType(t, r.source)])
  {
    var v, ty := r.target.v, SourceType(t, r.source);
    var u := t[v := ty];
    assert u.Keys == t.Keys && Known(u, r);
    assert Justifies(t0, u, r, v);
    FiredIsDerivable(rules, t0, t, r);
    forall w | w in u && u[w] != t0[w]
      ensures !t0[w].Signed? && u[w].Signed? && Justified(rules, t0, u, w)
    {
      if w != v { RetypeKeepsJustified(rules, t0, t, v, ty, w); }
    }
  }

  lemma RuleIsSound(rules: set<Rule>, t0: Types, p: Progress, r: Rule)
    requires KnownRules(t0, rules) && Sound(rules, t0, p.types) && r in rules && Known(p.types, r)
    ensures Sound(rules, t0, ApplyRule(p, r).types)
  {
    if ApplyRule(p, r).types != p.types { RetypeIsSound(rules, t0, p.types, r); }
  }

  lemma {:induction false} RulesAreSound(rules: set<Rule>, t0: Types, p: Progress, l: seq<Rule>, k: nat)
    requires KnownRules(t0, rules) && Sound(rules, t0, p.types) && AllKnown(p.types, l) && k <= |l|
    requires forall j :: 0 <= j < |l| ==> l[j] in rules
    ensures Sound(rules, t0, ApplyRules(p, l, k).types)
  {
    hide Sound, ApplyRule;
    if k > 0 {
      RulesAreSound(rules, t0, p, l, k - 1);
      RuleIsSound(rules, t0, ApplyRules(p, l, k - 1), l[k - 1]);
    }
  }

  lemma {:induction false} AllAreSound(t0: Types, p: Progress, irs: seq<Instruction>, n: nat, m: nat)
    requires Declared(p.types, irs) && n <= m <= |irs| && KnownRules(t0, RuleSet(irs, m))
    requires Sound(RuleSet(irs, m), t0, p.types)
    ensures Sound(RuleSet(irs, m), t0, ApplyAll(p, irs, n).types)
  {
    hide Sound, Rules, AllKnown, ApplyRules, KnownRules;
    if n > 0 {
      AllAreSound(t0, p, irs, n - 1, m);
      var q, l := ApplyAll(p, irs, n - 1), Rules(irs[n - 1]);
      SameKeysKnown(p.types, q.types, irs, n - 1);
      assert forall j :: 0 <= j < |l| ==> l[j] in RuleSet(irs, m);
      RulesAreSound(RuleSet(irs, m), t0, q, l, |l|);
    }
  }

  // ---------------------------------------------------------------- how a run ends

  /** A run of rules that changed nothing and raised nothing found all of them to hold. */
  lemma {:induction false} QuietRulesHold(p: Progress, l: seq<Rule>, k: nat)
    requires AllKnown(p.types, l) && k <= |l| && ApplyRules(p, l, k) == p && p.ok
    ensures forall j :: 0 <= j < k ==> ApplyRules(p, l, j) == p
    ensures HoldUpTo(p.types, l, k)
  {
    if k > 0 {
      var q := ApplyRules(p, l, k - 1);
      RulesAdvance(p, l, k - 1);
      assert Known(q.types, l[k - 1]);
      if q.types != p.types {
        if ApplyRule(q, l[k - 1]).types != q.types {
          RetypeShrinks(q.types, l[k - 1].target.v, SourceType(q.types, l[k - 1].source));
        }
      }
      QuietRulesHold(p, l, k - 1);
    }
  }

  lemma {:induction false} QuietInstructionsAreMet(p: Progress, irs: seq<Instruction>, n: nat)
    requires Declared(p.types, irs) && n <= |irs| && ApplyAll(p, irs, n) == p && p.ok
    ensures forall i :: 0 <= i < n ==> Met(p.types, irs[i])
  {
    hide Rules, AllKnown, ApplyRules, HoldUpTo, Rest;
    if n > 0 {
      var q, l := ApplyAll(p, irs, n - 1), Rules(irs[n - 1]);
      AllAdvance(p, irs, n - 1);
      SameKeysKnown(p.types, q.types, irs, n - 1);
      RulesAdvance(q, l, |l|);
      QuietInstructionsAreMet(p, irs, n - 1);
      QuietRulesHold(p, l, |l|);
    }
  }

  lemma {:induction false} RaisedRule(p: Progress, l: seq<Rule>, k: nat) returns (j: nat)
    requires AllKnown(p.types, l) && k <= |l| && p.ok && !ApplyRules(p, l, k).ok
    ensures j < k && Known(ApplyRules(p, l, k).types, l[j]) && Raises(ApplyRules(p, l, k).types, l[j])
  {
    var q := ApplyRules(p, l, k - 1);
    assert Known(p.types, l[k - 1]);
    if q.ok { j := k - 1; } else { j := RaisedRule(p, l, k - 1); }
  }

  lemma {:induction false} RaisedInstruction(p: Progress, irs: seq<Instruction>, n: nat) returns (i: nat)
    requires Declared(p.types, irs) && n <= |irs| && p.ok && !ApplyAll(p, irs, n).ok
    ensures i < n && AllKnown(ApplyAll(p, irs, n).types, Rules(irs[i]))
    ensures Blocked(ApplyAll(p, irs, n).types, irs[i])
  {
    var q := ApplyAll(p, irs, n - 1);
    SameKeysKnown(p.types, q.types, irs, n - 1);
    SameKeysKnown(p.types, ApplyAll(p, irs, n).types, irs, n - 1);
    if q.ok {
      i := n - 1;
      if ArityOk(irs[i]) { var j := RaisedRule(q, Rules(irs[i]), |Rules(irs[i])|); }
    } else {
      i := RaisedInstruction(p, irs, n - 1);
    }
  }

  ghost predicate Finished(irs: seq<Instruction>, t0: Types, t: Types)
    requires Declared(t0, irs)
  {
    DeclaredRules(t0, irs, Visited(irs, 0));
    && Sound(RuleSet(irs, Visited(irs, 0)), t0, t)
    && forall i :: 0 <= i < Visited(irs, 0) ==> AllKnown(t, Rules(irs[i])) && Met(t, irs[i])
  }

  lemma BlockedIsNotMet(t: Types, i: Instruction)
    requires AllKnown(t, Rules(i)) && Blocked(t, i)
    ensures !Met(t, i)
  {
    if ArityOk(i) {
      var k :| 0 <= k < |Rules(i)| && Raises(t, Rules(i)[k]);
      assert !Holds(t, Rules(i)[k]);
    }
  }

  /**
   * What `Convert` leaves: the run is sound, it ends normally exactly when
   * every rule before the first unresolved call holds, and it raises exactly
   * when it stops at an instruction with an unreadable operand or the wrong
   * number of arguments.
   */
  lemma {:induction false} FixedIsExact(irs: seq<Instruction>, t0: Types, t: Types)
    requires Declared(t0, irs) && Declared(t, irs) && KnownRules(t0, RuleSet(irs, Visited(irs, 0)))
    requires Sound(RuleSet(irs, Visited(irs, 0)), t0, t)
    ensures var q := Fixed(t, irs);
            && Sound(RuleSet(irs, Visited(irs, 0)), t0, q.types) && Declared(q.types, irs)
            && (q.ok <==> forall i :: 0 <= i < Visited(irs, 0) ==> Met(q.types, irs[i]))
            && (!q.ok <==> exists i :: 0 <= i < Visited(irs, 0) && Blocked(q.types, irs[i]))
    decreases |Rest(t)|
  {
    var n, q := Visited(irs, 0), OnePass(t, irs);
    AllAreSound(t0, Progress(t, true), irs, n, n);
    AllAdvance(Progress(t, true), irs, n);
    SameKeysDeclared(t, q.types, irs);
    if !q.ok {
      var i := RaisedInstruction(Progress(t, true), irs, n);
      BlockedIsNotMet(q.types, irs[i]);
    } else if q.types == t {
      QuietInstructionsAreMet(q, irs, n);
      forall i | 0 <= i < n && Blocked(t, irs[i]) ensures false { BlockedIsNotMet(t, irs[i]); }
    } else {
      FixedIsExact(irs, t0, q.types);
    }
  }

  lemma FixedIsFinished(irs: seq<Instruction>, t0: Types)
    requires Declared(t0, irs)
    ensures Fixed(t0, irs).ok <==> Finished(irs, t0, Fixed(t0, irs).types)
  {
    DeclaredRules(t0, irs, Visited(irs, 0));
    SoundInitially(RuleSet(irs, Visited(irs, 0)), t0);
    FixedIsExact(irs, t0, t0);
    SameKeysDeclared(t0, Fixed(t0, irs).types, irs);
  }

  // ---------------------------------------------------------------- which operands become integers

  function Integers(t: Types): set<Var> {
    set v | v in t && t[v].Signed?
  }

  /** No array whose elements a rule reads can itself be turned into an integer. */
  ghost predicate ArraysSafe(rules: set<Rule>, t0: Types)
    requires KnownRules(t0, rules)
  {
    forall r, bits :: r in rules && r.source.ElementOf? ==> !Derivable(rules, t0, r.source.v, bits)
  }

  lemma ChangedIsDerivable(rules: set<Rule>, t0: Types, t: Types, v: Var)
    requires KnownRules(t0, rules) && Sound(rules, t0, t) && v in t
    ensures t.Keys == t0.Keys && (t[v] != t0[v] ==> t[v].Signed? && Derivable(rules, t0, v, t[v].bits))
  {
  }

  lemma NotDerivable(rules: set<Rule>, t0: Types, r: Rule, bits: nat)
    requires KnownRules(t0, rules) && ArraysSafe(rules, t0) && r in rules && r.source.ElementOf?
    ensures !Derivable(rules, t0, r.source.v, bits)
  {
  }

  lemma ArrayKept(rules: set<Rule>, t0: Types, t: Types, r: Rule)
    requires KnownRules(t0, rules) && ArraysSafe(rules, t0) && Sound(rules, t0, t) && r in rules && Known(t, r)
    ensures !r.source.TypeOf? ==> SourceType(t, r.source) == SourceType(t0, r.source)
  {
    hide Sound, ArraysSafe;
    if r.source.ElementOf? {
      var v := r.source.v;
      ChangedIsDerivable(rules, t0, t, v);
      if t[v] != t0[v] { NotDerivable(rules, t0, r, t[v].bits); }
    }
  }

  lemma FinishedRule(irs: seq<Instruction>, t0: Types, t: Types, r: Rule)
    requires Declared(t0, irs) && Finished(irs, t0, t) && r in RuleSet(irs, Visited(irs, 0))
    ensures Known(t0, r) && Known(t, r) && Holds(t, r)
  {
    var i, k :| 0 <= i < Visited(irs, 0) && 0 <= k < |Rules(irs[i])| && Rules(irs[i])[k] == r;
    assert AllKnown(t0, Rules(irs[i])) && AllKnown(t, Rules(irs[i])) && Met(t, irs[i]);
  }

  /**
   * The variables that end up integers form the least set closed under the
   * visited rules: the pass types what the program forces and nothing else.
   */
  lemma IntegersAreLeast(irs: seq<Instruction>, t0: Types, t: Types)
    requires Declared(t0, irs) && Finished(irs, t0, t)
    requires KnownRules(t0, RuleSet(irs, Visited(irs, 0))) && ArraysSafe(RuleSet(irs, Visited(irs, 0)), t0)
    ensures Closed(RuleSet(irs, Visited(irs, 0)), t0, Integers(t))
    ensures forall s :: Closed(RuleSet(irs, Visited(irs, 0)), t0, s) ==> Integers(t) <= s
  {
    var rules := RuleSet(irs, Visited(irs, 0));
    forall r | r in rules ensures ClosedUnder(t0, Integers(t), r) {
      FinishedRule(irs, t0, t, r);
      ArrayKept(rules, t0, t, r);
    }
    forall s | Closed(rules, t0, s) ensures Integers(t) <= s {
      forall v | v in Integers(t) ensures v in s {
        DerivableIsInside(rules, t0, s, v, t[v].bits);
      }
    }
  }

  /** The order and repetition of instructions do not decide which operands become integers. */
  lemma OrderDoesNotMatter(a: seq<Instruction>, b: seq<Instruction>, t0: Types, t: Types, u: Types)
    requires Declared(t0, a) && Declared(t0, b) && Finished(a, t0, t) && Finished(b, t0, u)
    requires RuleSet(a, Visited(a, 0)) == RuleSet(b, Visited(b, 0))
    requires KnownRules(t0, RuleSet(a, Visited(a, 0))) && ArraysSafe(RuleSet(a, Visited(a, 0)), t0)
    ensures Integers(t) == Integers(u)
  {
    IntegersAreLeast(a, t0, t);
    IntegersAreLeast(b, t0, u);
  }

  /** Running the pass on its own result changes nothing. */
  lemma FinishedIsStable(irs: seq<Instruction>, t0: Types, t: Types, u: Types)
    requires Declared(t0, irs) && Declared(t, irs) && Finished(irs, t0, t) && Finished(irs, t, u)
    ensures u == t
  {
    var rules := RuleSet(irs, Visited(irs, 0));
    DeclaredRules(t, irs, Visited(irs, 0));
    forall r | r in rules ensures ClosedUnder(t, Integers(t), r) {
      FinishedRule(irs, t0, t, r);
    }
    assert Closed(rules, t, Integers(t));
    forall v | v in u ensures u[v] == t[v] {
      if u[v].Signed? { DerivableIsInside(rules, t, Integers(t), v, u[v].bits); }
    }
  }

  // ---------------------------------------------------------------- widths

  /** A visited rule that applies to `v` in the final state. */
  ghost predicate DemandOn(rules: set<Rule>, t: Types, v: Var, r: Rule) {
    r in rules && r.target == One(v) && Known(t, r) && SourceType(t, r.source).Signed?
  }

  /** Every demand made on an operand the pass has retyped is met to the bit. */
  ghost predicate DemandsMet(rules: set<Rule>, t0: Types, t: Types)
    requires t.Keys == t0.Keys
  {
    forall v, r :: v in t && t[v] != t0[v] && DemandOn(rules, t, v, r) ==> SourceType(t, r.source) == t[v]
  }

  /** At most one width can reach each variable that is no integer to begin with. */
  ghost predicate WidthsUnique(rules: set<Rule>, t0: Types)
    requires KnownRules(t0, rules)
  {
    forall v, a, b :: v in t0 && !t0[v].Signed? && Derivable(rules, t0, v, a) && Derivable(rules, t0, v, b) ==> a == b
  }

  /** If all demands are met, the type of every variable along a chain is the width it carries. */
  lemma {:induction false} ChainFixesWidth(irs: seq<Instruction>, t0: Types, t: Types, c: seq<Var>, bits: nat, k: nat)
    requires Declared(t0, irs) && Finished(irs, t0, t)
    requires KnownRules(t0, RuleSet(irs, Visited(irs, 0))) && ArraysSafe(RuleSet(irs, Visited(irs, 0)), t0)
    requires Chain(RuleSet(irs, Visited(irs, 0)), t0, c, bits) && k < |c|
    requires DemandsMet(RuleSet(irs, Visited(irs, 0)), t0, t)
    ensures c[k] in t && t[c[k]] == Signed(bits)
  {
    var rules := RuleSet(irs, Visited(irs, 0));
    if k > 0 {
      ChainFixesWidth(irs, t0, t, c, bits, k - 1);
      assert Feeds(rules, t0, c[k - 1], c[k]);
      var r :| r in rules && r.source == TypeOf(c[k - 1]) && r.target == One(c[k]);
      FinishedRule(irs, t0, t, r);
      assert DemandOn(rules, t, c[k], r);
    } else if !t0[c[0]].Signed? {
      var r :| r in rules && Asks(t0, r, c[0], bits);
      FinishedRule(irs, t0, t, r);
      ArrayKept(rules, t0, t, r);
      assert DemandOn(rules, t, c[0], r);
    }
  }

  /**
   * A finished run meets every demand on the operands it has retyped exactly
   * when, in the program as given, no operand can be reached by two widths.
   */
  lemma WidthsMatchIffUnique(irs: seq<Instruction>, t0: Types, t: Types)
    requires Declared(t0, irs) && Finished(irs, t0, t)
    requires KnownRules(t0, RuleSet(irs, Visited(irs, 0))) && ArraysSafe(RuleSet(irs, Visited(irs, 0)), t0)
    ensures DemandsMet(RuleSet(irs, Visited(irs, 0)), t0, t) <==> WidthsUnique(RuleSet(irs, Visited(irs, 0)), t0)
  {
    var rules := RuleSet(irs, Visited(irs, 0));
    if DemandsMet(rules, t0, t) {
      forall v, a, b | v in t0 && !t0[v].Signed? && Derivable(rules, t0, v, a) && Derivable(rules, t0, v, b)
        ensures a == b
      {
        var c :| Chain(rules, t0, c, a) && c[|c| - 1] == v;
        var d :| Chain(rules, t0, d, b) && d[|d| - 1] == v;
        ChainFixesWidth(irs, t0, t, c, a, |c| - 1);
        ChainFixesWidth(irs, t0, t, d, b, |d| - 1);
      }
    }
    if WidthsUnique(rules, t0) {
      forall v, r | v in t && t[v] != t0[v] && DemandOn(rules, t, v, r) ensures SourceType(t, r.source) == t[v] {
        FiredIsDerivable(rules, t0, t, r);
        assert Derivable(rules, t0, v, t[v].bits);
      }
    }
  }

  /**
   * Two assignments of different width from one operand: the pass gives it the
   * first width and ends normally, and the second demand is not met.
   */
  lemma ConflictingWidths(x: Var, y: Var, c: Var, a: nat, b: nat, t0: Types)
    requires x != c && y != c && x != y && a != b
    requires x in t0 && y in t0 && c in t0
    requires t0[x] == Signed(a) && t0[y] == Signed(b) && t0[c] == Elementary("uint256")
    ensures var irs := [Assignment(x, Value(c)), Assignment(y, Value(c))];
            && Declared(t0, irs) && Fixed(t0, irs) == Progress(t0[c := Signed(a)], true)
            && !DemandsMet(RuleSet(irs, Visited(irs, 0)), t0, Fixed(t0, irs).types)
  {
    var irs := [Assignment(x, Value(c)), Assignment(y, Value(c))];
    var first, second := Rule(TypeOf(x), One(c), true), Rule(TypeOf(y), One(c), true);
    assert Rules(irs[0]) == [first] && Rules(irs[1]) == [second];
    var t := t0[c := Signed(a)];
    TwoInOrder(t0, irs, first, second, Progress(t, true), t);
    assert second in RuleSet(irs, 2);
    assert DemandOn(RuleSet(irs, 2), t, c, second);
  }

  /** Two instructions of one rule each, applied once and then without effect. */
  lemma TwoInOrder(t0: Types, irs: seq<Instruction>, first: Rule, second: Rule, p: Progress, t: Types)
    requires |irs| == 2 && Declared(t0, irs) && Rules(irs[0]) == [first] && Rules(irs[1]) == [second]
    requires ArityOk(irs[0]) && ArityOk(irs[1]) && !IsUnresolved(irs[0]) && !IsUnresolved(irs[1])
    requires Known(t0, first) && ApplyRule(Progress(t0, true), first) == p && p.ok
    requires Known(p.types, second) && ApplyRule(p, second) == Progress(t, true)
    requires ApplyRule(Progress(t, true), first) == Progress(t, true)
    requires ApplyRule(Progress(t, true), second) == Progress(t, true)
    ensures Visited(irs, 0) == 2 && Fixed(t0, irs) == Progress(t, true)
  {
    assert Visited(irs, 2) == 2 && Visited(irs, 1) == 2 && Visited(irs, 0) == 2;
    TwoRules(t0, irs, first, second, p, Progress(t, true));
    SameKeysDeclared(t0, t, irs);
    TwoRules(t, irs, first, second, Progress(t, true), Progress(t, true));
    assert OnePass(t0, irs) == Progress(t, true) && OnePass(t, irs) == Progress(t, true);
  }

  lemma TwoRules(t: Types, irs: seq<Instruction>, first: Rule, second: Rule, p: Progress, q: Progress)
    requires |irs| == 2 && Declared(t, irs) && Rules(irs[0]) == [first] && Rules(irs[1]) == [second]
    requires ArityOk(irs[0]) && ArityOk(irs[1])
    requires Known(t, first) && ApplyRule(Progress(t, true), first) == p
    requires Known(p.types, second) && ApplyRule(p, second) == q && p.ok
    ensures ApplyAll(Progress(t, true), irs, 2) == q
  {
    assert ApplyRules(Progress(t, true), [first], 0) == Progress(t, true);
    assert ApplyAll(Progress(t, true), irs, 0) == Progress(t, true);
    assert ApplyAll(Progress(t, true), irs, 1) == p;
    SameKeysKnown(t, p.types, irs, 1);
    assert ApplyRules(p, [second], 0) == p;
  }

  /**
   * Where an array can itself be retyped the order does decide: its elements
   * are retyped if the literal comes before the assignment, and otherwise not.
   */
  lemma ArrayOrderMatters(x: Var, arr: Var, v: Var, a: nat, b: nat, t0: Types)
    requires x != arr && v != arr && x != v && x in t0 && arr in t0 && v in t0
    requires t0[x] == Signed(a) && t0[arr] == Array(Signed(b)) && t0[v] == Elementary("uint256")
    ensures var (literal, use) := (InitArray(arr, [v]), Assignment(x, Value(arr)));
            && Declared(t0, [literal, use]) && Declared(t0, [use, literal])
            && RuleSet([literal, use], 2) == RuleSet([use, literal], 2)
            && Fixed(t0, [literal, use]) == Progress(t0[v := Signed(b)][arr := Signed(a)], true)
            && Fixed(t0, [use, literal]) == Progress(t0[arr := Signed(a)], true)
  {
    LiteralFirst(x, arr, v, a, b, t0);
    UseFirst(x, arr, v, a, b, t0);
    hide Fixed, RuleSet;
    RulesOfEither(InitArray(arr, [v]), Assignment(x, Value(arr)));
    RulesOfEither(Assignment(x, Value(arr)), InitArray(arr, [v]));
  }

  lemma RulesOfEither(i: Instruction, j: Instruction)
    ensures RuleSet([i, j], 2) <= RuleSet([j, i], 2)
  {
    forall r | r in RuleSet([i, j], 2) ensures r in RuleSet([j, i], 2) {
      var m, k :| 0 <= m < 2 && 0 <= k < |Rules([i, j][m])| && r == Rules([i, j][m])[k];
      assert [j, i][1 - m] == [i, j][m];
    }
  }

  lemma LiteralFirst(x: Var, arr: Var, v: Var, a: nat, b: nat, t0: Types)
    requires x != arr && v != arr && x != v && x in t0 && arr in t0 && v in t0
    requires t0[x] == Signed(a) && t0[arr] == Array(Signed(b)) && t0[v] == Elementary("uint256")
    ensures var irs := [InitArray(arr, [v]), Assignment(x, Value(arr))];
            Declared(t0, irs) && Fixed(t0, irs) == Progress(t0[v := Signed(b)][arr := Signed(a)], true)
  {
    var irs := [InitArray(arr, [v]), Assignment(x, Value(arr))];
    var first, second := Rule(ElementOf(arr), One(v), false), Rule(TypeOf(x), One(arr), true);
    assert Rules(irs[0]) == [first] && Rules(irs[1]) == [second];
    hide Fixed, OnePass;
    TwoInOrder(t0, irs, first, second, Progress(t0[v := Signed(b)], true), t0[v := Signed(b)][arr := Signed(a)]);
  }

  lemma UseFirst(x: Var, arr: Var, v: Var, a: nat, b: nat, t0: Types)
    requires x != arr && v != arr && x != v && x in t0 && arr in t0 && v in t0
    requires t0[x] == Signed(a) && t0[arr] == Array(Signed(b)) && t0[v] == Elementary("uint256")
    ensures var irs := [Assignment(x, Value(arr)), InitArray(arr, [v])];
            Declared(t0, irs) && Fixed(t0, irs) == Progress(t0[arr := Signed(a)], true)
  {
    var irs := [Assignment(x, Value(arr)), InitArray(arr, [v])];
    var first, second := Rule(TypeOf(x), One(arr), true), Rule(ElementOf(arr), One(v), false);
    assert Rules(irs[0]) == [first] && Rules(irs[1]) == [second];
    hide Fixed, OnePass;
    TwoInOrder(t0, irs, first, second, Progress(t0[arr := Signed(a)], true), t0[arr := Signed(a)]);
  }
}
