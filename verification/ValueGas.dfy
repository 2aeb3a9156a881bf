/** Folding chained `.value(..)` and `.gas(..)` calls into the call they configure. */
module ValueGas {
  import opened Collections

  type Name = string

  datatype Kind = CALL | VALUE | GAS

  /** The instruction that defines what a call calls, as far as it matters here. */
  datatype Origin = FromMember(left: Name, right: string) | FromOther

  /** Member: lvalue = left.right. Arg: an argument of the next call. Call: lvalue = called(..). */
  datatype Ins =
    | Member(lvalue: Name, left: Name, right: string)
    | Arg(kind: Kind, callId: Option<Name>)
    | Call(lvalue: Name, called: Name, origin: Option<Origin>, id: Option<Name>)
    | Assign(lvalue: Name)
    | Other

  predicate Defines(i: Ins) { i.Member? || i.Call? || i.Assign? }

  type Code = seq<Ins>

  type Rank = map<Name, nat>

  /** Definitions appear in increasing rank and use only variables of lower rank, or
      variables not defined here. */
  ghost predicate Ranked(code: Code, rank: Rank) {
    && (forall i :: 0 <= i < |code| && Defines(code[i]) ==> code[i].lvalue in rank)
    && (forall i, j :: 0 <= i < j < |code| && Defines(code[i]) && Defines(code[j]) ==>
          rank[code[i].lvalue] < rank[code[j].lvalue])
    && (forall i :: 0 <= i < |code| && code[i].Member? && code[i].left in rank
                    ==> rank[code[i].left] < rank[code[i].lvalue])
    && (forall i :: 0 <= i < |code| && code[i].Call? && code[i].called in rank
                    ==> rank[code[i].called] < rank[code[i].lvalue])
  }

  /** A recorded member origin is the definition of what is called. */
  ghost predicate OriginsTrue(code: Code) {
    forall i :: 0 <= i < |code| && code[i].Call? && code[i].origin.Some? && code[i].origin.value.FromMember? ==>
      exists j :: 0 <= j < i && code[j] == Member(code[i].called, code[i].origin.value.left, code[i].origin.value.right)
  }

  // ----- first loop: find definitions -----

  function OriginOf(i: Ins): Origin {
    if i.Member? then FromMember(i.left, i.right) else FromOther
  }

  /** The last definition of name among the first n instructions. */
  function Definition(code: Code, name: Name, n: nat): Option<Ins>
    requires n <= |code|
  {
    if n == 0 then None
    else if Defines(code[n - 1]) && code[n - 1].lvalue == name then Some(code[n - 1])
    else Definition(code, name, n - 1)
  }

  /** Instruction i once its origin has been looked up. */
  function Looked(code: Code, i: nat): Ins
    requires i < |code|
  {
    var ins := code[i];
    if ins.Call? && Definition(code, ins.called, i + 1).Some?
    then ins.(origin := Some(OriginOf(Definition(code, ins.called, i + 1).value)))
    else ins
  }

  function Refreshed(code: Code): (r: Code)
    ensures |r| == |code| && forall i :: 0 <= i < |code| ==> r[i] == Looked(code, i)
  {
    seq(|code|, i requires 0 <= i < |code| => Looked(code, i))
  }

  method Refresh(code: Code) returns (r: Code)
    ensures r == Refreshed(code)
  {
    var assignments: map<Name, Ins> := map[];
    r := code;
    for i := 0 to |code|
      invariant |r| == |code|
      invariant forall j :: 0 <= j < |code| ==> r[j] == if j < i then Looked(code, j) else code[j]
      invariant forall name ::
                  (if name in assignments then Some(assignments[name]) else None) == Definition(code, name, i)
    {
      var ins := code[i];
      if Defines(ins) {
        assignments := assignments[ins.lvalue := ins];
      }
      if ins.Call? && ins.called in assignments {
        r := r[i := ins.(origin := Some(OriginOf(assignments[ins.called])))];
      }
    }
  }

  /** The instruction assigns to name. */
  predicate Writes(i: Ins, name: Name) {
    match i
    case Member(lvalue, _, _) => lvalue == name
    case Call(lvalue, _, _, _) => lvalue == name
    case Assign(lvalue) => lvalue == name
    case Arg(_, _) => false
    case Other => false
  }

  /** A call learns where what it calls was assigned last, by instruction j, the call itself
      included: by that member access, or by no member access at all. Without an assignment, where
      j is -1, it learns nothing. */
  lemma OriginIsLastWrite(code: Code, i: nat, j: int)
    requires i < |code| && code[i].Call? && -1 <= j <= i
    requires j >= 0 ==> Writes(code[j], code[i].called)
    requires forall k :: j < k <= i ==> !Writes(code[k], code[i].called)
    ensures Refreshed(code)[i] == if j < 0 then code[i] else
              code[i].(origin := Some(if code[j].Member? then FromMember(code[j].left, code[j].right) else FromOther))
  {
    LastWrite(code, code[i].called, i + 1, j);
  }

  lemma {:induction false} LastWrite(code: Code, name: Name, n: nat, j: int)
    requires -1 <= j < n <= |code|
    requires j >= 0 ==> Writes(code[j], name)
    requires forall k :: j < k < n ==> !Writes(code[k], name)
    ensures Definition(code, name, n) == if j < 0 then None else Some(code[j])
  {
    if n > 0 && j < n - 1 {
      assert !Writes(code[n - 1], name);
      LastWrite(code, name, n - 1, j);
    }
  }

  // ----- second loop: find the calls to value and gas -----

  predicate SetsOption(i: Ins) {
    i.Call? && i.origin.Some? && i.origin.value.FromMember? && i.origin.value.right in {"value", "gas"}
  }

  /** The instruction before i, as Python indexes it: the last one when i is the first. */
  function Previous(code: Code, i: nat): Ins
    requires i < |code|
  {
    if i == 0 then code[|code| - 1] else code[i - 1]
  }

  /** Instruction i sets the value or gas of a call, rather than calling a function of that name. */
  predicate IsOption(code: Code, i: nat)
    requires i < |code|
  {
    SetsOption(code[i]) && Previous(code, i).Arg?
  }

  function KindOf(i: Ins): Kind
    requires SetsOption(i)
  {
    if i.origin.value.right == "value" then VALUE else GAS
  }

  /** What each option call's result stands for, among the first n instructions. */
  function Replacements(code: Code, n: nat): map<Name, Name>
    requires n <= |code|
  {
    if n == 0 then map[]
    else if IsOption(code, n - 1) then Replacements(code, n - 1)[code[n - 1].lvalue := code[n - 1].origin.value.left]
    else Replacements(code, n - 1)
  }

  predicate HasOption(code: Code) {
    exists i :: 0 <= i < |code| && IsOption(code, i)
  }

  /** Instruction i after the option call behind it, if any, has claimed it. */
  function Claimed(code: Code, i: nat): Ins
    requires i < |code|
  {
    if code[i].Arg? && i + 1 < |code| && IsOption(code, i + 1)
    then Arg(KindOf(code[i + 1]), Some(code[i + 1].origin.value.left))
    else code[i]
  }

  // ----- last loop: follow the replacements -----

  /** Following a replacement leads to a lower rank. */
  ghost predicate Falling(v: map<Name, Name>, rank: Rank) {
    forall n :: n in v ==> n in rank && (v[n] in rank ==> rank[v[n]] < rank[n])
  }

  ghost function RankOf(rank: Rank, n: Name): nat { if n in rank then rank[n] + 1 else 0 }

  ghost function Resolve(v: map<Name, Name>, rank: Rank, n: Name): (r: Name)
    requires Falling(v, rank)
    ensures r !in v && RankOf(rank, r) <= RankOf(rank, n) && (n in v ==> RankOf(rank, r) < RankOf(rank, n))
    decreases RankOf(rank, n)
  {
    if n in v then Resolve(v, rank, v[n]) else n
  }

  method Follow(v: map<Name, Name>, name: Name, ghost rank: Rank) returns (r: Name)
    requires Falling(v, rank)
    ensures r == Resolve(v, rank, name)
  {
    r := name;
    while r in v
      invariant Resolve(v, rank, r) == Resolve(v, rank, name)
      decreases RankOf(rank, r)
    {
      r := v[r];
    }
  }

  /** An instruction with all replacements followed. */
  ghost function Followed(v: map<Name, Name>, rank: Rank, i: Ins): Ins
    requires Falling(v, rank)
  {
    match i
    case Arg(kind, Some(id)) => Arg(kind, Some(Resolve(v, rank, id)))
    case Call(lvalue, called, origin, id) =>
      if called in v then Call(lvalue, Resolve(v, rank, called), origin, Some(Resolve(v, rank, called))) else i
    case _ => i
  }

  lemma {:induction false} ReplacementsFall(code: Code, rank: Rank, n: nat)
    requires Ranked(code, rank) && OriginsTrue(code) && n <= |code|
    ensures Falling(Replacements(code, n), rank)
  {
    if n > 0 {
      ReplacementsFall(code, rank, n - 1);
      if IsOption(code, n - 1) {
        var o := code[n - 1].origin.value;
        var j :| 0 <= j < n - 1 && code[j] == Member(code[n - 1].called, o.left, o.right);
      }
    }
  }

  lemma OptionHasPredecessor(code: Code, i: nat)
    requires OriginsTrue(code) && i < |code| && SetsOption(code[i])
    ensures i > 0
  {
  }

  method Claim(r: Code) returns (c: Code, removed: set<nat>, v: map<Name, Name>)
    requires OriginsTrue(r)
    ensures |c| == |r| && forall i :: 0 <= i < |r| ==> c[i] == Claimed(r, i)
    ensures removed == set i | 0 <= i < |r| && IsOption(r, i)
    ensures v == Replacements(r, |r|)
  {
    c, removed, v := r, {}, map[];
    for i := 0 to |r|
      invariant |c| == |r| && forall j :: 0 <= j < |r| ==> c[j] == if j + 1 < i then Claimed(r, j) else r[j]
      invariant removed == set j | 0 <= j < i && IsOption(r, j)
      invariant v == Replacements(r, i)
    {
      var ins := c[i];
      if SetsOption(ins) && Previous(c, i).Arg? {
        OptionHasPredecessor(r, i);
        c := c[i - 1 := Arg(KindOf(ins), Some(ins.origin.value.left))];
        removed := removed + {i};
        v := v[ins.lvalue := ins.origin.value.left];
      }
    }
  }

  /** What one round leaves of the first n instructions of the looked-up code r. */
  ghost function Kept(r: Code, v: map<Name, Name>, rank: Rank, n: nat): Code
    requires n <= |r| && Falling(v, rank)
  {
    if n == 0 then []
    else if IsOption(r, n - 1) then Kept(r, v, rank, n - 1)
    else Kept(r, v, rank, n - 1) + [Followed(v, rank, Claimed(r, n - 1))]
  }

  ghost predicate Sound(code: Code, rank: Rank) {
    Ranked(code, rank) && OriginsTrue(code)
  }

  lemma {:induction false} DefinitionFound(code: Code, name: Name, n: nat)
    requires n <= |code| && Definition(code, name, n).Some?
    ensures exists j :: 0 <= j < n && code[j] == Definition(code, name, n).value
                        && Defines(code[j]) && code[j].lvalue == name
  {
    if !(Defines(code[n - 1]) && code[n - 1].lvalue == name) { DefinitionFound(code, name, n - 1); }
  }

  lemma RefreshedIsSound(code: Code, rank: Rank)
    requires Sound(code, rank)
    ensures Sound(Refreshed(code), rank)
  {
    var r := Refreshed(code);
    forall i | 0 <= i < |r| && r[i].Call? && r[i].origin.Some? && r[i].origin.value.FromMember?
      ensures exists j :: 0 <= j < i && r[j] == Member(r[i].called, r[i].origin.value.left, r[i].origin.value.right)
    {
      if Definition(code, code[i].called, i + 1).Some? {
        DefinitionFound(code, code[i].called, i + 1);
        var j :| 0 <= j < i + 1 && code[j] == Definition(code, code[i].called, i + 1).value
                 && Defines(code[j]) && code[j].lvalue == code[i].called;
        assert r[j] == code[j];
      } else {
        var j :| 0 <= j < i && code[j] == Member(code[i].called, code[i].origin.value.left, code[i].origin.value.right);
        assert r[j] == code[j];
      }
    }
  }

  ghost function OnePass(code: Code, rank: Rank): Code
    requires Sound(code, rank)
  {
    RefreshedIsSound(code, rank);
    var r := Refreshed(code);
    ReplacementsFall(r, rank, |r|);
    Kept(r, Replacements(r, |r|), rank, |r|)
  }

  // ----- a round keeps the code well formed -----

  /** Every definition kept comes from the first n instructions. */
  lemma {:induction false} KeptRanks(r: Code, v: map<Name, Name>, rank: Rank, n: nat, m: nat)
    requires Sound(r, rank) && n <= m < |r| && Falling(v, rank) && Defines(r[m])
    ensures forall i :: 0 <= i < |Kept(r, v, rank, n)| && Defines(Kept(r, v, rank, n)[i]) ==>
              Kept(r, v, rank, n)[i].lvalue in rank && rank[Kept(r, v, rank, n)[i].lvalue] < rank[r[m].lvalue]
  {
    if n > 0 { KeptRanks(r, v, rank, n - 1, m); }
  }

  lemma {:induction false} KeptIsRanked(r: Code, v: map<Name, Name>, rank: Rank, n: nat)
    requires Sound(r, rank) && n <= |r| && Falling(v, rank)
    ensures Ranked(Kept(r, v, rank, n), rank)
  {
    if n > 0 {
      KeptIsRanked(r, v, rank, n - 1);
      if !IsOption(r, n - 1) {
        if Defines(r[n - 1]) { KeptRanks(r, v, rank, n - 1, n - 1); }
        LastIsRanked(r, v, rank, n - 1);
        hide Followed, Claimed, Sound, IsOption, Resolve;
        RankedSnoc(Kept(r, v, rank, n - 1), rank, Followed(v, rank, Claimed(r, n - 1)));
      }
    }
  }

  /** A single instruction uses lower ranks than it defines. */
  ghost predicate RankedOne(i: Ins, rank: Rank) {
    && (Defines(i) ==> i.lvalue in rank)
    && (i.Member? && i.left in rank ==> rank[i.left] < rank[i.lvalue])
    && (i.Call? && i.called in rank ==> rank[i.called] < rank[i.lvalue])
  }

  lemma RankedSnoc(code: Code, rank: Rank, i: Ins)
    requires Ranked(code, rank) && RankedOne(i, rank)
    requires Defines(i) ==> forall j :: 0 <= j < |code| && Defines(code[j]) ==> rank[code[j].lvalue] < rank[i.lvalue]
    ensures Ranked(code + [i], rank)
  {
    var all := code + [i];
    assert all[|code|] == i && forall j :: 0 <= j < |code| ==> all[j] == code[j];
  }

  /** Following replacements does not raise a rank. */
  lemma LastIsRanked(r: Code, v: map<Name, Name>, rank: Rank, n: nat)
    requires Sound(r, rank) && n < |r| && Falling(v, rank)
    ensures var i := Followed(v, rank, Claimed(r, n));
            && RankedOne(i, rank) && (Defines(i) <==> Defines(r[n])) && (Defines(i) ==> i.lvalue == r[n].lvalue)
  {
  }

  /** Members survive unchanged. */
  lemma {:induction false} MemberKept(r: Code, v: map<Name, Name>, rank: Rank, n: nat, j: nat)
    requires n <= |r| && Falling(v, rank) && j < n && r[j].Member?
    ensures exists i :: 0 <= i < |Kept(r, v, rank, n)| && Kept(r, v, rank, n)[i] == r[j]
  {
    if j == n - 1 {
      assert Kept(r, v, rank, n)[|Kept(r, v, rank, n - 1)|] == r[j];
    } else {
      MemberKept(r, v, rank, n - 1, j);
      var i :| 0 <= i < |Kept(r, v, rank, n - 1)| && Kept(r, v, rank, n - 1)[i] == r[j];
      assert Kept(r, v, rank, n)[i] == r[j];
    }
  }

  /** A replaced name is the result of an option call. */
  lemma {:induction false} ReplacedIsCall(r: Code, n: nat, name: Name)
    requires n <= |r| && name in Replacements(r, n)
    ensures exists i :: 0 <= i < n && IsOption(r, i) && r[i].lvalue == name
                        && Replacements(r, n)[name] == r[i].origin.value.left
  {
    if !(IsOption(r, n - 1) && r[n - 1].lvalue == name) { ReplacedIsCall(r, n - 1, name); }
  }

  /** The member a call goes through is never replaced. */
  lemma MemberNotReplaced(r: Code, rank: Rank, j: nat)
    requires Sound(r, rank) && j < |r| && r[j].Member?
    ensures r[j].lvalue !in Replacements(r, |r|)
  {
    if r[j].lvalue in Replacements(r, |r|) {
      ReplacedIsCall(r, |r|, r[j].lvalue);
    }
  }

  lemma {:induction false} KeptOriginsTrue(r: Code, rank: Rank, n: nat)
    requires Sound(r, rank) && n <= |r| && Falling(Replacements(r, |r|), rank)
    ensures OriginsTrue(Kept(r, Replacements(r, |r|), rank, n))
  {
    hide Kept, Replacements, Followed, Claimed, IsOption, OriginIn, OriginsTrue, Sound, Falling;
    var v := Replacements(r, |r|);
    if n == 0 {
      NothingKept(r, v, rank);
    } else {
      KeptOriginsTrue(r, rank, n - 1);
      if IsOption(r, n - 1) {
        DroppedHere(r, v, rank, n);
      } else {
        OriginKept(r, rank, n - 1);
        OriginsTrueSnoc(Kept(r, v, rank, n - 1), Followed(v, rank, Claimed(r, n - 1)));
        KeptHere(r, v, rank, n);
      }
    }
  }

  lemma NothingKept(r: Code, v: map<Name, Name>, rank: Rank)
    requires Falling(v, rank)
    ensures Kept(r, v, rank, 0) == [] && OriginsTrue(Kept(r, v, rank, 0))
  {
  }

  lemma DroppedHere(r: Code, v: map<Name, Name>, rank: Rank, n: nat)
    requires 0 < n <= |r| && Falling(v, rank) && IsOption(r, n - 1)
    ensures Kept(r, v, rank, n) == Kept(r, v, rank, n - 1)
  {
  }

  lemma KeptHere(r: Code, v: map<Name, Name>, rank: Rank, n: nat)
    requires 0 < n <= |r| && Falling(v, rank) && !IsOption(r, n - 1)
    ensures Kept(r, v, rank, n) == Kept(r, v, rank, n - 1) + [Followed(v, rank, Claimed(r, n - 1))]
  {
  }

  /** A member origin recorded in x is a definition in code. */
  ghost predicate OriginIn(code: Code, x: Ins) {
    x.Call? && x.origin.Some? && x.origin.value.FromMember? ==>
      exists j :: 0 <= j < |code| && code[j] == Member(x.called, x.origin.value.left, x.origin.value.right)
  }

  lemma OriginsTrueSnoc(code: Code, x: Ins)
    requires OriginsTrue(code) && OriginIn(code, x)
    ensures OriginsTrue(code + [x])
  {
    var all := code + [x];
    assert forall i :: 0 <= i < |code| ==> all[i] == code[i];
    forall i | 0 <= i < |all| && all[i].Call? && all[i].origin.Some? && all[i].origin.value.FromMember?
      ensures exists j :: 0 <= j < i
                          && all[j] == Member(all[i].called, all[i].origin.value.left, all[i].origin.value.right)
    {
      if i == |code| {
        var j :| 0 <= j < |code| && code[j] == Member(x.called, x.origin.value.left, x.origin.value.right);
        assert all[j] == code[j];
      } else {
        var o := code[i].origin.value;
        var j :| 0 <= j < i && code[j] == Member(code[i].called, o.left, o.right);
        assert all[j] == code[j];
      }
    }
  }

  /** A kept call still finds its member. */
  lemma OriginKept(r: Code, rank: Rank, n: nat)
    requires Sound(r, rank) && n < |r| && Falling(Replacements(r, |r|), rank)
    ensures var v := Replacements(r, |r|); OriginIn(Kept(r, v, rank, n), Followed(v, rank, Claimed(r, n)))
  {
    var v, m := Replacements(r, |r|), r[n];
    if m.Call? && m.origin.Some? && m.origin.value.FromMember? {
      var j :| 0 <= j < n && r[j] == Member(m.called, m.origin.value.left, m.origin.value.right);
      MemberNotReplaced(r, rank, j);
      MemberKept(r, v, rank, n, j);
      hide Kept, Replacements, IsOption;
    }
  }

  lemma OnePassIsSound(code: Code, rank: Rank)
    requires Sound(code, rank)
    ensures Sound(OnePass(code, rank), rank)
  {
    RefreshedIsSound(code, rank);
    var r := Refreshed(code);
    ReplacementsFall(r, rank, |r|);
    KeptIsRanked(r, Replacements(r, |r|), rank, |r|);
    KeptOriginsTrue(r, rank, |r|);
  }

  lemma {:induction false} KeptShrinks(r: Code, v: map<Name, Name>, rank: Rank, n: nat)
    requires n <= |r| && Falling(v, rank)
    ensures |Kept(r, v, rank, n)| <= n
    ensures (exists i :: 0 <= i < n && IsOption(r, i)) ==> |Kept(r, v, rank, n)| < n
  {
    if n > 0 { KeptShrinks(r, v, rank, n - 1); }
  }

  lemma OnePassShrinks(code: Code, rank: Rank)
    requires Sound(code, rank) && HasOption(Refreshed(code))
    ensures |OnePass(code, rank)| < |code|
  {
    RefreshedIsSound(code, rank);
    var r := Refreshed(code);
    ReplacementsFall(r, rank, |r|);
    KeptShrinks(r, Replacements(r, |r|), rank, |r|);
  }

  // ----- rounds until no option call is left -----

  ghost function Integrated(code: Code, rank: Rank): Code
    requires Sound(code, rank)
    decreases |code|
  {
    if HasOption(Refreshed(code)) then
      OnePassIsSound(code, rank);
      OnePassShrinks(code, rank);
      Integrated(OnePass(code, rank), rank)
    else Refreshed(code)
  }

  /** Without an option call a round changes nothing. */
  lemma {:induction false} NothingToReplace(r: Code, n: nat)
    requires n <= |r| && !HasOption(r)
    ensures Replacements(r, n) == map[]
  {
    if n > 0 { NothingToReplace(r, n - 1); }
  }

  lemma {:induction false} KeptUnchanged(r: Code, rank: Rank, n: nat)
    requires n <= |r| && !HasOption(r) && Falling(map[], rank)
    ensures Kept(r, map[], rank, n) == r[..n]
  {
    if n > 0 {
      KeptUnchanged(r, rank, n - 1);
      assert r[..n] == r[..n - 1] + [r[n - 1]];
    }
  }

  lemma {:induction false} DefinitionRefreshed(code: Code, name: Name, n: nat)
    requires n <= |code|
    ensures Definition(code, name, n).Some? == Definition(Refreshed(code), name, n).Some?
    ensures Definition(code, name, n).Some? ==>
              OriginOf(Definition(code, name, n).value) == OriginOf(Definition(Refreshed(code), name, n).value)
  {
    if n > 0 { DefinitionRefreshed(code, name, n - 1); }
  }

  /** Looking up origins a second time changes nothing. */
  lemma RefreshedTwice(code: Code)
    ensures Refreshed(Refreshed(code)) == Refreshed(code)
  {
    forall i | 0 <= i < |code| && code[i].Call? ensures Looked(Refreshed(code), i) == Looked(code, i) {
      DefinitionRefreshed(code, code[i].called, i + 1);
    }
  }

  /** A round without an option call is the last one. */
  lemma Settled(code: Code, rank: Rank)
    requires Sound(code, rank) && !HasOption(Refreshed(code)) && Sound(Refreshed(code), rank)
    requires Falling(Replacements(Refreshed(code), |code|), rank)
    ensures var r := Refreshed(code);
            && Kept(r, Replacements(r, |r|), rank, |r|) == r && Refreshed(r) == r && Integrated(code, rank) == r
  {
    var r := Refreshed(code);
    NothingToReplace(r, |r|);
    KeptUnchanged(r, rank, |r|);
    RefreshedTwice(code);
    assert r[..|r|] == r;
  }

  /** Terminates on every well-formed code: a round that changes anything removes a call. */
  method IntegrateValueGas(code: Code, ghost rank: Rank) returns (result: Code)
    requires Sound(code, rank)
    ensures result == Integrated(code, rank)
    ensures Sound(result, rank) && !HasOption(Refreshed(result))
  {
    result := code;
    var wasChanged := true;
    while wasChanged
      invariant Sound(result, rank)
      invariant if wasChanged then Integrated(result, rank) == Integrated(code, rank)
                else result == Integrated(code, rank) && !HasOption(Refreshed(result))
      decreases |result|, wasChanged
    {
      hide Sound, Falling, Refreshed, Replacements, Kept, IsOption;
      RefreshedIsSound(result, rank);
      var r := Refresh(result);
      ReplacementsFall(r, rank, |r|);
      var c, removed, v := Claim(r);
      wasChanged := removed != {};
      if wasChanged {
        assert HasOption(r) by { var i :| i in removed; }
        OnePassIsSound(result, rank);
        OnePassShrinks(result, rank);
      } else {
        assert !HasOption(r) by { assert forall i :: 0 <= i < |r| && IsOption(r, i) ==> i in removed; }
        Settled(result, rank);
      }
      result := Update(r, c, removed, v, rank);
    }
  }

  /** Drops the claimed option calls and follows the replacements in what is left. */
  method Update(ghost r: Code, c: Code, removed: set<nat>, v: map<Name, Name>, ghost rank: Rank) returns (result: Code)
    requires Falling(v, rank) && |c| == |r| && forall i :: 0 <= i < |r| ==> c[i] == Claimed(r, i)
    requires removed == set i | 0 <= i < |r| && IsOption(r, i)
    ensures result == Kept(r, v, rank, |r|)
  {
    result := [];
    for i := 0 to |c|
      invariant result == Kept(r, v, rank, i)
    {
      if i !in removed {
        var ins := c[i];
        if ins.Call? && ins.called in v {
          var target := Follow(v, ins.called, rank);
          ins := ins.(called := target, id := Some(target));
        }
        if ins.Arg? && ins.callId.Some? {
          var id := Follow(v, ins.callId.value, rank);
          ins := ins.(callId := Some(id));
        }
        result := result + [ins];
      }
    }
  }

  // ----- chains -----

  /** Option call i is part of the chain that produced name. */
  ghost predicate Feeds(r: Code, v: map<Name, Name>, rank: Rank, i: nat, name: Name)
    requires i < |r| && Defines(r[i]) && Falling(v, rank)
    decreases RankOf(rank, name)
  {
    name in v && (r[i].lvalue == name || Feeds(r, v, rank, i, v[name]))
  }

  /** All calls of a chain resolve to the same name, however long the chain. */
  lemma {:induction false} ChainResolves(r: Code, v: map<Name, Name>, rank: Rank, i: nat, name: Name)
    requires i < |r| && Defines(r[i]) && Falling(v, rank) && Feeds(r, v, rank, i, name)
    ensures r[i].lvalue in v && Resolve(v, rank, v[r[i].lvalue]) == Resolve(v, rank, name)
    decreases RankOf(rank, name)
  {
    if r[i].lvalue != name { ChainResolves(r, v, rank, i, v[name]); }
  }

  lemma {:induction false} ReplacementAt(r: Code, rank: Rank, n: nat, i: nat)
    requires Sound(r, rank) && i < n <= |r| && IsOption(r, i)
    ensures r[i].lvalue in Replacements(r, n) && Replacements(r, n)[r[i].lvalue] == r[i].origin.value.left
  {
    if i < n - 1 {
      ReplacementAt(r, rank, n - 1, i);
      assert IsOption(r, n - 1) ==> rank[r[i].lvalue] < rank[r[n - 1].lvalue];
    }
  }

  /** Where a round leaves an instruction that it keeps. */
  lemma {:induction false} KeptAt(r: Code, v: map<Name, Name>, rank: Rank, n: nat, j: nat)
    requires n <= |r| && Falling(v, rank) && j < n && !IsOption(r, j)
    ensures var p := |Kept(r, v, rank, j)|;
            p < |Kept(r, v, rank, n)| && Kept(r, v, rank, n)[p] == Followed(v, rank, Claimed(r, j))
  {
    if j < n - 1 { KeptAt(r, v, rank, n - 1, j); }
  }

  /** And every instruction left comes from one that was kept. */
  lemma {:induction false} KeptFrom(r: Code, v: map<Name, Name>, rank: Rank, n: nat, p: nat) returns (j: nat)
    requires n <= |r| && Falling(v, rank) && p < |Kept(r, v, rank, n)|
    ensures j < n && !IsOption(r, j) && p == |Kept(r, v, rank, j)|
    ensures Kept(r, v, rank, n)[p] == Followed(v, rank, Claimed(r, j))
  {
    if p < |Kept(r, v, rank, n - 1)| { j := KeptFrom(r, v, rank, n - 1, p); } else { j := n - 1; }
  }

  /** Instruction i calls a member of something, and the kind is VALUE if it is its member `value`,
      and GAS if it is its member `gas`. */
  ghost predicate KindAsNamed(code: Code, i: nat, kind: Kind)
    requires i < |code| && code[i].Call?
  {
    exists j :: 0 <= j < i && code[j].Member? && code[j].lvalue == code[i].called
                && (kind == VALUE <==> code[j].right == "value") && (kind == GAS <==> code[j].right == "gas")
  }

  /** At p stands an argument and at q the call that defines name; both carry the same id, which is
      also what the call calls. */
  predicate MatchedAt(out: Code, p: nat, q: nat, name: Name)
    requires p < |out| && q < |out|
  {
    && out[p].Arg? && out[q].Call? && out[q].lvalue == name
    && out[p].callId == out[q].id == Some(out[q].called)
  }

  /** The argument of option call i is claimed for the name that the fed call resolves to. */
  lemma FedIsReplaced(r: Code, rank: Rank, i: nat, name: Name)
    requires Sound(r, rank) && i < |r| && IsOption(r, i)
    requires Falling(Replacements(r, |r|), rank) && Feeds(r, Replacements(r, |r|), rank, i, name)
    ensures i > 0 && !IsOption(r, i - 1) && name in Replacements(r, |r|)
    ensures Followed(Replacements(r, |r|), rank, Claimed(r, i - 1))
         == Arg(KindOf(r[i]), Some(Resolve(Replacements(r, |r|), rank, name)))
  {
    OptionHasPredecessor(r, i);
    ReplacementAt(r, rank, |r|, i);
    ChainResolves(r, Replacements(r, |r|), rank, i, name);
    assert Claimed(r, i - 1) == Arg(KindOf(r[i]), Some(r[i].origin.value.left));
  }

  /** Where a round leaves instruction j, unless it is an option call. */
  ghost function Moved(code: Code, rank: Rank, j: nat): nat
    requires Sound(code, rank) && j < |code|
  {
    RefreshedIsSound(code, rank);
    var r := Refreshed(code);
    ReplacementsFall(r, rank, |r|);
    |Kept(r, Replacements(r, |r|), rank, j)|
  }

  lemma MovedAt(code: Code, rank: Rank, j: nat)
    requires Sound(code, rank) && j < |code| && !IsOption(Refreshed(code), j)
    requires Falling(Replacements(Refreshed(code), |code|), rank)
    ensures var (r, m) := (Refreshed(code), Moved(code, rank, j));
            && m < |OnePass(code, rank)|
            && OnePass(code, rank)[m] == Followed(Replacements(r, |r|), rank, Claimed(r, j))
  {
    var r := Refreshed(code);
    KeptAt(r, Replacements(r, |r|), rank, |r|, j);
  }

  lemma OptionIsNamed(code: Code, rank: Rank, i: nat)
    requires Sound(code, rank) && i < |code| && SetsOption(Refreshed(code)[i])
    ensures KindAsNamed(code, i, KindOf(Refreshed(code)[i]))
  {
    RefreshedIsSound(code, rank);
    var r := Refreshed(code);
    var o := r[i].origin.value;
    var j :| 0 <= j < i && r[j] == Member(r[i].called, o.left, o.right);
    assert code[j] == r[j];
  }

  /** After one round the argument of option call i and the call k that its chain feeds have
      the same id. */
  lemma ChainArgumentMatchesCall(code: Code, rank: Rank, i: nat, k: nat)
    requires Sound(code, rank) && i < |code| && k < |code|
    requires var r := Refreshed(code);
             && IsOption(r, i) && RealCall(r, k)
             && Falling(Replacements(r, |r|), rank) && Feeds(r, Replacements(r, |r|), rank, i, r[k].called)
    ensures i > 0 && !IsOption(Refreshed(code), i - 1)
    ensures var (out, p, q) := (OnePass(code, rank), Moved(code, rank, i - 1), Moved(code, rank, k));
            p < |out| && q < |out| && MatchedAt(out, p, q, code[k].lvalue) && KindAsNamed(code, i, out[p].kind)
  {
    var r := Refreshed(code);
    RefreshedIsSound(code, rank);
    OptionIsNamed(code, rank, i);
    FedIsReplaced(r, rank, i, r[k].called);
    MovedAt(code, rank, i - 1);
    MovedAt(code, rank, k);
    hide Sound, OnePass, Moved, IsOption, Feeds, Falling, Replacements, Resolve;
    hide KindAsNamed, Claimed, SetsOption, KindOf;
    CallFollowed(r, Replacements(r, |r|), rank, k);
  }

  /** A call of a replaced name gets the name it stands for as its id. */
  lemma CallFollowed(r: Code, v: map<Name, Name>, rank: Rank, k: nat)
    requires k < |r| && Falling(v, rank) && r[k].Call? && r[k].called in v
    ensures var (name, i) := (Resolve(v, rank, r[k].called), Followed(v, rank, Claimed(r, k)));
            i.Call? && i.lvalue == r[k].lvalue && i.called == name && i.id == Some(name)
  {
  }

  lemma {:induction false} IntegratedShrinks(code: Code, rank: Rank)
    requires Sound(code, rank)
    ensures |Integrated(code, rank)| <= |code|
    ensures HasOption(Refreshed(code)) ==> |Integrated(code, rank)| < |code|
    decreases |code|
  {
    if HasOption(Refreshed(code)) {
      OnePassIsSound(code, rank);
      OnePassShrinks(code, rank);
      IntegratedShrinks(OnePass(code, rank), rank);
    }
  }

  /** Definitions kept by a round are the ones it did not take for option calls. */
  lemma {:induction false} KeptDefinitions(r: Code, v: map<Name, Name>, rank: Rank, n: nat, p: nat)
    requires n <= |r| && Falling(v, rank) && p < |Kept(r, v, rank, n)| && Defines(Kept(r, v, rank, n)[p])
    ensures exists j :: 0 <= j < n && !IsOption(r, j) && Defines(r[j]) && r[j].lvalue == Kept(r, v, rank, n)[p].lvalue
  {
    if p < |Kept(r, v, rank, n - 1)| {
      KeptDefinitions(r, v, rank, n - 1, p);
    }
  }

  lemma {:induction false} IntegratedDefinitions(code: Code, rank: Rank, p: nat)
    requires Sound(code, rank) && p < |Integrated(code, rank)| && Defines(Integrated(code, rank)[p])
    ensures exists j :: 0 <= j < |code| && !IsOption(Refreshed(code), j) && Defines(code[j])
                        && code[j].lvalue == Integrated(code, rank)[p].lvalue
    decreases |code|
  {
    var r := Refreshed(code);
    if HasOption(r) {
      OnePassIsSound(code, rank);
      OnePassShrinks(code, rank);
      RefreshedIsSound(code, rank);
      ReplacementsFall(r, rank, |r|);
      var c := OnePass(code, rank);
      IntegratedDefinitions(c, rank, p);
      var j :| 0 <= j < |c| && !IsOption(Refreshed(c), j) && Defines(c[j])
               && c[j].lvalue == Integrated(code, rank)[p].lvalue;
      KeptDefinitions(r, Replacements(r, |r|), rank, |r|, j);
    } else {
      assert code[p].lvalue == r[p].lvalue;
    }
  }

  /** Whatever a round takes for an option call is lost: nothing in the result defines what it
      defined. */
  lemma OptionCallIsLost(code: Code, rank: Rank, q: nat, p: nat)
    requires Sound(code, rank) && q < |code| && IsOption(Refreshed(code), q)
    requires p < |Integrated(code, rank)| && Defines(Integrated(code, rank)[p])
    ensures Integrated(code, rank)[p].lvalue != code[q].lvalue
  {
    IntegratedDefinitions(code, rank, p);
    var j :| 0 <= j < |code| && !IsOption(Refreshed(code), j) && Defines(code[j])
             && code[j].lvalue == Integrated(code, rank)[p].lvalue;
    assert j != q && Defines(code[q]);
  }

  // ----- when the arguments and the calls agree in the end -----

  /** A call that is not taken for an option call in the first round. */
  predicate RealCall(r: Code, k: nat) {
    k < |r| && r[k].Call? && !IsOption(r, k)
  }

  /** The name is defined by a member called value or gas. */
  predicate NamesOption(r: Code, name: Name) {
    var d := Definition(r, name, |r|);
    d.Some? && d.value.Member? && d.value.right in {"value", "gas"}
  }

  /** The instruction that is kept just before k is an argument; an option call is never kept,
      and stands right behind its argument. */
  predicate AfterArg(r: Code, k: nat)
    requires k < |r|
  {
    k > 0 && (r[k - 1].Arg? || IsOption(r, k - 1))
  }

  /** A real call behind an argument, to a name that resolves to a member called value or gas. */
  ghost predicate Shadowed(r: Code, rank: Rank, k: nat)
    requires Falling(Replacements(r, |r|), rank)
  {
    RealCall(r, k) && AfterArg(r, k) && NamesOption(r, Resolve(Replacements(r, |r|), rank, r[k].called))
  }

  lemma PreviousKept(r: Code, v: map<Name, Name>, rank: Rank, k: nat)
    requires Sound(r, rank) && Falling(v, rank) && 0 < k < |r|
    ensures var before := Kept(r, v, rank, k);
            before != [] && (before[|before| - 1].Arg? <==> AfterArg(r, k))
  {
    if IsOption(r, k - 1) {
      OptionHasPredecessor(r, k - 1);
      assert r[k - 2].Arg? && !IsOption(r, k - 2);
      assert Kept(r, v, rank, k) == Kept(r, v, rank, k - 1);
    }
  }

  lemma {:induction false} KeptPrefix(r: Code, v: map<Name, Name>, rank: Rank, k: nat, n: nat)
    requires k <= n <= |r| && Falling(v, rank)
    ensures Kept(r, v, rank, k) <= Kept(r, v, rank, n)
  {
    if k < n { KeptPrefix(r, v, rank, k, n - 1); }
  }

  /** A definition that is left is the definition of its name. */
  lemma DefinitionAt(c: Code, rank: Rank, i: nat, n: nat)
    requires Ranked(c, rank) && i < n <= |c| && Defines(c[i])
    ensures Definition(c, c[i].lvalue, n) == Some(c[i])
  {
    DefinitionIs(c, c[i].lvalue, n, i);
  }

  /** A call that is left sees the member it calls through exactly when there is one. */
  lemma MembersSeen(r: Code, v: map<Name, Name>, rank: Rank, q: nat)
    requires Sound(r, rank) && Falling(v, rank) && Sound(Kept(r, v, rank, |r|), rank)
    requires q < |Kept(r, v, rank, |r|)| && Kept(r, v, rank, |r|)[q].Call?
    ensures var c := Kept(r, v, rank, |r|); var d := Definition(c, c[q].called, q + 1);
            NamesOption(r, c[q].called) <==> d.Some? && d.value.Member? && d.value.right in {"value", "gas"}
  {
    hide Sound, Kept, Falling, Definition;
    var c := Kept(r, v, rank, |r|);
    if NamesOption(r, c[q].called) { MemberStillSeen(r, v, rank, q); }
    var d := Definition(c, c[q].called, q + 1);
    if d.Some? && d.value.Member? { MemberSeenBefore(r, v, rank, q); }
  }

  lemma MemberStillSeen(r: Code, v: map<Name, Name>, rank: Rank, q: nat)
    requires Sound(r, rank) && Falling(v, rank) && Sound(Kept(r, v, rank, |r|), rank)
    requires q < |Kept(r, v, rank, |r|)| && Kept(r, v, rank, |r|)[q].Call?
    requires var d := Definition(r, Kept(r, v, rank, |r|)[q].called, |r|); d.Some? && d.value.Member?
    ensures var c := Kept(r, v, rank, |r|); Definition(c, c[q].called, q + 1) == Definition(r, c[q].called, |r|)
  {
    hide Definition, Falling, Kept, Claimed, IsOption;
    var c := Kept(r, v, rank, |r|);
    var x := c[q].called;
    DefinitionFound(r, x, |r|);
    var j :| 0 <= j < |r| && r[j] == Definition(r, x, |r|).value && Defines(r[j]) && r[j].lvalue == x;
    MemberKept(r, v, rank, |r|, j);
    var i :| 0 <= i < |c| && c[i] == r[j];
    RankOrders(c, rank, i, q);
    DefinitionAt(c, rank, i, q + 1);
  }

  /** What a call calls is defined before it. */
  lemma RankOrders(c: Code, rank: Rank, i: nat, q: nat)
    requires Ranked(c, rank) && i < |c| && q < |c| && Defines(c[i]) && c[q].Call? && c[q].called == c[i].lvalue
    ensures i < q
  {
  }

  lemma MemberSeenBefore(r: Code, v: map<Name, Name>, rank: Rank, q: nat)
    requires Sound(r, rank) && Falling(v, rank)
    requires q < |Kept(r, v, rank, |r|)| && Kept(r, v, rank, |r|)[q].Call?
    requires var c := Kept(r, v, rank, |r|); var d := Definition(c, c[q].called, q + 1); d.Some? && d.value.Member?
    ensures var c := Kept(r, v, rank, |r|); Definition(c, c[q].called, q + 1) == Definition(r, c[q].called, |r|)
  {
    hide Definition, Falling, IsOption;
    var c := Kept(r, v, rank, |r|);
    var x := c[q].called;
    DefinitionFound(c, x, q + 1);
    var i :| 0 <= i < q + 1 && c[i] == Definition(c, x, q + 1).value && Defines(c[i]) && c[i].lvalue == x;
    var j := KeptFrom(r, v, rank, |r|, i);
    assert r[j] == c[i];
    DefinitionAt(r, rank, j, |r|);
  }

  lemma LookedSetsOption(c: Code, rank: Rank, q: nat)
    requires Sound(c, rank) && q < |c| && c[q].Call?
    ensures var d := Definition(c, c[q].called, q + 1);
            SetsOption(Looked(c, q)) <==> d.Some? && d.value.Member? && d.value.right in {"value", "gas"}
  {
    var o := c[q].origin;
    if o.Some? && o.value.FromMember? {
      var j :| 0 <= j < q && c[j] == Member(c[q].called, o.value.left, o.value.right);
      DefinitionAt(c, rank, j, q + 1);
    }
  }

  /** The second round takes a kept call for an option call exactly when it is shadowed. */
  lemma TakenNextIff(code: Code, rank: Rank, k: nat)
    requires Sound(code, rank) && k < |code|
    requires RealCall(Refreshed(code), k) && Falling(Replacements(Refreshed(code), |code|), rank)
    ensures var (r, c) := (Refreshed(code), OnePass(code, rank));
            var q := |Kept(r, Replacements(r, |r|), rank, k)|;
            && q < |c| && c[q].Call? && c[q].lvalue == r[k].lvalue
            && (IsOption(Refreshed(c), q) <==> Shadowed(r, rank, k))
  {
    var r, c := Refreshed(code), OnePass(code, rank);
    var v := Replacements(r, |r|);
    RefreshedIsSound(code, rank);
    OnePassIsSound(code, rank);
    RefreshedIsSound(c, rank);
    KeptAt(r, v, rank, |r|, k);
    var q := |Kept(r, v, rank, k)|;
    assert c[q].called == Resolve(v, rank, r[k].called);
    MembersSeen(r, v, rank, q);
    LookedSetsOption(c, rank, q);
    ArgumentBefore(code, rank, k);
    hide Sound, Kept, Replacements, Definition, Resolve, Falling, OnePass, AfterArg;
  }

  /** A kept call stands behind an argument before and after the round. */
  lemma ArgumentBefore(code: Code, rank: Rank, k: nat)
    requires Sound(code, rank) && k < |code| && Sound(Refreshed(code), rank)
    requires RealCall(Refreshed(code), k) && Falling(Replacements(Refreshed(code), |code|), rank)
    requires Sound(OnePass(code, rank), rank) && Sound(Refreshed(OnePass(code, rank)), rank)
    ensures var (r, c) := (Refreshed(code), OnePass(code, rank));
            var q := |Kept(r, Replacements(r, |r|), rank, k)|;
            q < |c| && (SetsOption(Refreshed(c)[q]) ==> (Previous(Refreshed(c), q).Arg? <==> AfterArg(r, k)))
  {
    hide Replacements, Definition, Resolve, Claimed, SetsOption, IsOption, Kept, Falling;
    var r, c := Refreshed(code), OnePass(code, rank);
    var v := Replacements(r, |r|);
    KeptAt(r, v, rank, |r|, k);
    var q := |Kept(r, v, rank, k)|;
    if SetsOption(Refreshed(c)[q]) { OptionHasPredecessor(Refreshed(c), q); }
    if k > 0 {
      PreviousKept(r, v, rank, k);
      KeptPrefix(r, v, rank, k, |r|);
      assert q > 0 ==> (Refreshed(c)[q - 1].Arg? <==> c[q - 1].Arg?);
    } else {
      NothingKept(r, v, rank);
    }
  }

  ghost predicate NothingShadowed(r: Code, rank: Rank)
    requires Falling(Replacements(r, |r|), rank)
  {
    forall k :: !Shadowed(r, rank, k)
  }

  lemma NothingTakenIff(code: Code, rank: Rank)
    requires Sound(code, rank) && Falling(Replacements(Refreshed(code), |code|), rank)
    ensures NothingShadowed(Refreshed(code), rank) <==> !HasOption(Refreshed(OnePass(code, rank)))
  {
    var r, c := Refreshed(code), OnePass(code, rank);
    forall k | Shadowed(r, rank, k) ensures HasOption(Refreshed(c)) {
      TakenNextIff(code, rank, k);
    }
    hide Sound, Falling, Replacements, Shadowed, OnePass, IsOption;
    forall q | 0 <= q < |c| && IsOption(Refreshed(c), q) ensures !NothingShadowed(r, rank) {
      var k := TakenFrom(code, rank, q);
    }
  }

  /** What the second round takes is a shadowed call. */
  lemma TakenFrom(code: Code, rank: Rank, q: nat) returns (k: nat)
    requires Sound(code, rank) && Falling(Replacements(Refreshed(code), |code|), rank)
    requires q < |OnePass(code, rank)| && IsOption(Refreshed(OnePass(code, rank)), q)
    ensures Shadowed(Refreshed(code), rank, k)
  {
    var r := Refreshed(code);
    k := KeptFrom(r, Replacements(r, |r|), rank, |r|, q);
    TakenNextIff(code, rank, k);
    hide Sound, Falling, Replacements, Shadowed, Kept;
  }

  /** The first round can always be done separately. */
  lemma AfterOneRound(code: Code, rank: Rank)
    requires Sound(code, rank) && Sound(OnePass(code, rank), rank)
    ensures Integrated(code, rank) == Integrated(OnePass(code, rank), rank)
  {
    var r := Refreshed(code);
    if !HasOption(r) {
      NothingToReplace(r, |r|);
      KeptUnchanged(r, rank, |r|);
      assert r[..|r|] == r;
      RefreshedTwice(code);
    }
  }

  /** Where instruction j stands in the final code, and None if some round has removed it. */
  ghost function Place(code: Code, rank: Rank, j: nat): (p: Option<nat>)
    requires Sound(code, rank) && j < |code|
    ensures p.Some? ==> p.value < |Integrated(code, rank)|
    decreases |code|
  {
    var r := Refreshed(code);
    if !HasOption(r) then Some(j)
    else if IsOption(r, j) then None
    else
      RefreshedIsSound(code, rank);
      ReplacementsFall(r, rank, |r|);
      OnePassIsSound(code, rank);
      OnePassShrinks(code, rank);
      MovedAt(code, rank, j);
      Place(OnePass(code, rank), rank, Moved(code, rank, j))
  }

  lemma {:induction false} KeptGrows(r: Code, v: map<Name, Name>, rank: Rank, j: nat, k: nat)
    requires j < k <= |r| && Falling(v, rank) && !IsOption(r, j)
    ensures |Kept(r, v, rank, j)| < |Kept(r, v, rank, k)|
    decreases k
  {
    if j + 1 < k { KeptGrows(r, v, rank, j, k - 1); }
  }

  /** No two instructions change their order. */
  lemma {:induction false} PlacesKeepOrder(code: Code, rank: Rank, j: nat, k: nat)
    requires Sound(code, rank) && j < k < |code|
    requires Place(code, rank, j).Some? && Place(code, rank, k).Some?
    ensures Place(code, rank, j).value < Place(code, rank, k).value
    decreases |code|
  {
    hide *;
    if HasOption(Refreshed(code)) {
      PlaceStep(code, rank, j);
      PlaceStep(code, rank, k);
      MovedInOrder(code, rank, j, k);
      PlacesKeepOrder(OnePass(code, rank), rank, Moved(code, rank, j), Moved(code, rank, k));
    } else {
      LastPlace(code, rank, j);
      LastPlace(code, rank, k);
    }
  }

  lemma MovedInOrder(code: Code, rank: Rank, j: nat, k: nat)
    requires Sound(code, rank) && j < k < |code| && !IsOption(Refreshed(code), j)
    requires Falling(Replacements(Refreshed(code), |code|), rank)
    ensures Moved(code, rank, j) < Moved(code, rank, k)
  {
    KeptGrows(Refreshed(code), Replacements(Refreshed(code), |code|), rank, j, k);
    hide Kept, Sound;
  }

  /** The same sort of instruction, defining the same name. */
  predicate SameSort(i: Ins, j: Ins) {
    && (i.Member? <==> j.Member?) && (i.Call? <==> j.Call?) && (i.Arg? <==> j.Arg?)
    && (Defines(i) <==> Defines(j)) && (Defines(i) && Defines(j) ==> i.lvalue == j.lvalue)
  }

  lemma MovedKeeps(code: Code, rank: Rank, j: nat)
    requires Sound(code, rank) && j < |code| && !IsOption(Refreshed(code), j)
    requires Falling(Replacements(Refreshed(code), |code|), rank)
    ensures Moved(code, rank, j) < |OnePass(code, rank)|
    ensures SameSort(OnePass(code, rank)[Moved(code, rank, j)], code[j])
  {
    MovedAt(code, rank, j);
    hide Sound, IsOption, OnePass, Moved, Replacements, Falling;
    var r := Refreshed(code);
    assert SameSort(r[j], code[j]);
  }

  /** One round leads to the place the further rounds start from. */
  lemma PlaceStep(code: Code, rank: Rank, j: nat)
    requires Sound(code, rank) && j < |code| && HasOption(Refreshed(code)) && Place(code, rank, j).Some?
    ensures Sound(OnePass(code, rank), rank) && |OnePass(code, rank)| < |code|
    ensures Falling(Replacements(Refreshed(code), |code|), rank) && !IsOption(Refreshed(code), j)
    ensures Moved(code, rank, j) < |OnePass(code, rank)|
    ensures Place(code, rank, j) == Place(OnePass(code, rank), rank, Moved(code, rank, j))
    ensures Integrated(code, rank) == Integrated(OnePass(code, rank), rank)
  {
    RefreshedIsSound(code, rank);
    ReplacementsFall(Refreshed(code), rank, |code|);
    OnePassIsSound(code, rank);
    OnePassShrinks(code, rank);
    MovedAt(code, rank, j);
    hide Sound, OnePass, Moved, Replacements, Refreshed, IsOption, HasOption, Kept;
  }

  lemma LastPlace(code: Code, rank: Rank, j: nat)
    requires Sound(code, rank) && j < |code| && !HasOption(Refreshed(code))
    ensures Place(code, rank, j) == Some(j) && SameSort(Integrated(code, rank)[j], code[j])
  {
    hide Sound;
  }

  lemma SameSortTrans(i: Ins, j: Ins, k: Ins)
    requires SameSort(i, j) && SameSort(j, k)
    ensures SameSort(i, k)
  {
  }

  /** An instruction in its final place is of the same sort. */
  lemma {:induction false} PlaceKeepsSort(code: Code, rank: Rank, j: nat)
    requires Sound(code, rank) && j < |code| && Place(code, rank, j).Some?
    ensures SameSort(Integrated(code, rank)[Place(code, rank, j).value], code[j])
    decreases |code|
  {
    hide *;
    if HasOption(Refreshed(code)) {
      PlaceStep(code, rank, j);
      MovedKeeps(code, rank, j);
      var m := Moved(code, rank, j);
      PlaceKeepsSort(OnePass(code, rank), rank, m);
      SameSortTrans(Integrated(code, rank)[Place(code, rank, j).value], OnePass(code, rank)[m], code[j]);
    } else {
      LastPlace(code, rank, j);
    }
  }

  /** Real call k is still there. */
  ghost predicate Survives(code: Code, rank: Rank, k: nat)
    requires Sound(code, rank) && k < |code| && Defines(code[k])
  {
    var (out, q) := (Integrated(code, rank), Place(code, rank, k));
    q.Some? && out[q.value].Call? && out[q.value].lvalue == code[k].lvalue
  }

  /** The argument before option call i is still there and carries the id of call k. */
  ghost predicate Agrees(code: Code, rank: Rank, i: nat, k: nat)
    requires Sound(code, rank) && 0 < i < |code| && k < |code| && Defines(code[k]) && code[i].Call?
  {
    var (out, p, q) := (Integrated(code, rank), Place(code, rank, i - 1), Place(code, rank, k));
    && p.Some? && q.Some? && MatchedAt(out, p.value, q.value, code[k].lvalue)
    && KindAsNamed(code, i, out[p.value].kind)
  }

  /** Every real call is still there, and the argument of every option call carries the id of the
      real call its chain feeds. */
  ghost predicate Agreed(code: Code, rank: Rank)
    requires Sound(code, rank) && Falling(Replacements(Refreshed(code), |code|), rank)
  {
    && (forall k: nat :: RealCall(Refreshed(code), k) ==> Survives(code, rank, k))
    && (forall i: nat, k: nat :: Configures(Refreshed(code), rank, i, k) ==> i > 0 && Agrees(code, rank, i, k))
  }

  /** Option call i belongs to the chain that real call k goes through. */
  ghost predicate Configures(r: Code, rank: Rank, i: nat, k: nat)
    requires Falling(Replacements(r, |r|), rank)
  {
    i < |r| && RealCall(r, k) && IsOption(r, i) && Feeds(r, Replacements(r, |r|), rank, i, r[k].called)
  }

  ghost predicate Present(out: Code, name: Name) {
    exists q :: 0 <= q < |out| && out[q].Call? && out[q].lvalue == name
  }

  /** If the first round is the last, it leaves every instruction in its final place. */
  lemma PlaceIsMoved(code: Code, rank: Rank, j: nat)
    requires Sound(code, rank) && j < |code| && !IsOption(Refreshed(code), j)
    requires Falling(Replacements(Refreshed(code), |code|), rank)
    requires Sound(OnePass(code, rank), rank) && !HasOption(Refreshed(OnePass(code, rank)))
    ensures Place(code, rank, j) == Some(Moved(code, rank, j))
    ensures Integrated(code, rank) == Refreshed(OnePass(code, rank))
  {
    var r := Refreshed(code);
    AfterOneRound(code, rank);
    MovedAt(code, rank, j);
    if !HasOption(r) {
      NothingToReplace(r, |r|);
      KeptUnchanged(r, rank, j);
    }
  }

  /** Without a shadowed call the first round is the last, and its arguments agree. */
  lemma NothingShadowedAgrees(code: Code, rank: Rank)
    requires Sound(code, rank) && Falling(Replacements(Refreshed(code), |code|), rank)
    requires NothingShadowed(Refreshed(code), rank)
    ensures Agreed(code, rank)
  {
    var r, c := Refreshed(code), OnePass(code, rank);
    OnePassIsSound(code, rank);
    NothingTakenIff(code, rank);
    forall k: nat | RealCall(r, k) ensures Survives(code, rank, k) { RealSurvives(code, rank, k); }
    hide Integrated, OnePass, Sound, RealCall, Agrees, Survives, Replacements;
    forall i: nat, k: nat | Configures(r, rank, i, k) ensures i > 0 && Agrees(code, rank, i, k) {
      ArgumentAgrees(code, rank, i, k);
    }
  }

  lemma ArgumentAgrees(code: Code, rank: Rank, i: nat, k: nat)
    requires Sound(code, rank) && Falling(Replacements(Refreshed(code), |code|), rank)
    requires Configures(Refreshed(code), rank, i, k)
    requires Sound(OnePass(code, rank), rank) && !HasOption(Refreshed(OnePass(code, rank)))
    ensures 0 < i < |code| && k < |code| && Defines(code[k]) && code[i].Call?
    ensures Agrees(code, rank, i, k)
  {
    hide *;
    ConfiguresParts(code, rank, i, k);
    ChainArgumentMatchesCall(code, rank, i, k);
    PlaceIsMoved(code, rank, i - 1);
    PlaceIsMoved(code, rank, k);
    MatchedRefreshed(OnePass(code, rank), Moved(code, rank, i - 1), Moved(code, rank, k),
                     code[k].lvalue);
    AgreesHere(code, rank, i, k);
  }

  lemma ConfiguresParts(code: Code, rank: Rank, i: nat, k: nat)
    requires Falling(Replacements(Refreshed(code), |code|), rank) && Configures(Refreshed(code), rank, i, k)
    ensures var r := Refreshed(code);
            && |r| == |code| && i < |r| && k < |r| && IsOption(r, i) && RealCall(r, k) && !IsOption(r, k)
            && SetsOption(r[i]) && Defines(r[i]) && Defines(code[k])
            && code[k].Call? && code[i].Call? && r[i].Call? && r[k].Call?
            && Feeds(r, Replacements(r, |r|), rank, i, r[k].called)
  {
    hide Replacements, Feeds, Falling;
  }

  lemma MatchedRefreshed(out: Code, p: nat, q: nat, name: Name)
    requires p < |out| && q < |out| && MatchedAt(out, p, q, name)
    ensures MatchedAt(Refreshed(out), p, q, name) && Refreshed(out)[p] == out[p]
  {
  }

  lemma AgreesHere(code: Code, rank: Rank, i: nat, k: nat)
    requires Sound(code, rank) && 0 < i < |code| && k < |code| && Defines(code[k]) && code[i].Call?
    requires Place(code, rank, i - 1).Some? && Place(code, rank, k).Some?
    requires MatchedAt(Integrated(code, rank), Place(code, rank, i - 1).value, Place(code, rank, k).value,
                       code[k].lvalue)
    requires KindAsNamed(code, i, Integrated(code, rank)[Place(code, rank, i - 1).value].kind)
    ensures Agrees(code, rank, i, k)
  {
    hide Sound, Place, Integrated, KindAsNamed;
  }

  lemma RealSurvives(code: Code, rank: Rank, k: nat)
    requires Sound(code, rank) && Falling(Replacements(Refreshed(code), |code|), rank)
    requires RealCall(Refreshed(code), k)
    requires Sound(OnePass(code, rank), rank) && !HasOption(Refreshed(OnePass(code, rank)))
    ensures Survives(code, rank, k)
  {
    PlaceIsMoved(code, rank, k);
    MovedAt(code, rank, k);
    hide Integrated, OnePass, Kept, Sound, Place, Moved, IsOption;
  }

  /** The whole pass, however many rounds it takes: in the final code all real calls are there
      and each argument agrees with its call exactly when no real call of the given code is
      shadowed. */
  lemma ArgumentsAgreeIff(code: Code, rank: Rank)
    requires Sound(code, rank) && Falling(Replacements(Refreshed(code), |code|), rank)
    ensures Agreed(code, rank) <==> NothingShadowed(Refreshed(code), rank)
  {
    hide Integrated, Sound, Refreshed, Shadowed, Present, Replacements, Falling;
    if NothingShadowed(Refreshed(code), rank) {
      NothingShadowedAgrees(code, rank);
    } else {
      var k :| Shadowed(Refreshed(code), rank, k);
      ShadowedCallIsLost(code, rank, k);
      LostIsNotAgreed(code, rank, k);
    }
  }

  lemma LostIsNotAgreed(code: Code, rank: Rank, k: nat)
    requires Sound(code, rank) && Falling(Replacements(Refreshed(code), |code|), rank)
    requires RealCall(Refreshed(code), k) && !Present(Integrated(code, rank), code[k].lvalue)
    ensures !Agreed(code, rank)
  {
    hide Integrated, Sound, Place, Falling;
    assert !Survives(code, rank, k);
  }

  lemma ShadowedCallIsLost(code: Code, rank: Rank, k: nat)
    requires Sound(code, rank) && Falling(Replacements(Refreshed(code), |code|), rank)
    requires Shadowed(Refreshed(code), rank, k)
    ensures RealCall(Refreshed(code), k) && !Present(Integrated(code, rank), Refreshed(code)[k].lvalue)
  {
    var r, c, out := Refreshed(code), OnePass(code, rank), Integrated(code, rank);
    OnePassIsSound(code, rank);
    AfterOneRound(code, rank);
    TakenNextIff(code, rank, k);
    forall p | 0 <= p < |out| && out[p].Call? ensures out[p].lvalue != code[k].lvalue {
      OptionCallIsLost(c, rank, |Kept(r, Replacements(r, |r|), rank, k)|, p);
    }
  }

  /** One round is all that happens exactly when no real call is shadowed. */
  lemma OneRoundSufficesIff(code: Code, rank: Rank)
    requires Sound(code, rank) && Falling(Replacements(Refreshed(code), |code|), rank)
    ensures Integrated(code, rank) == Refreshed(OnePass(code, rank)) <==> NothingShadowed(Refreshed(code), rank)
  {
    OnePassIsSound(code, rank);
    AfterOneRound(code, rank);
    NothingTakenIff(code, rank);
    IntegratedShrinks(OnePass(code, rank), rank);
  }

  // ----- where a rank comes from -----

  /** Unique names, definitions before uses, nothing looked up yet. */
  ghost predicate WellFormed(code: Code) {
    && (forall i, j :: 0 <= i < j < |code| && Defines(code[i]) && Defines(code[j]) ==> code[i].lvalue != code[j].lvalue)
    && (forall i, j :: 0 <= i <= j < |code| && code[i].Member? && Defines(code[j]) ==> code[i].left != code[j].lvalue)
    && (forall i, j :: 0 <= i <= j < |code| && code[i].Call? && Defines(code[j]) ==> code[i].called != code[j].lvalue)
    && (forall i :: 0 <= i < |code| && code[i].Call? ==> code[i].origin.None?)
  }

  /** Each variable's position of definition among the first n instructions. */
  ghost function Positions(code: Code, n: nat): Rank
    requires n <= |code|
  {
    if n == 0 then map[]
    else if Defines(code[n - 1]) then Positions(code, n - 1)[code[n - 1].lvalue := n - 1]
    else Positions(code, n - 1)
  }

  lemma {:induction false} PositionsExact(code: Code, n: nat)
    requires WellFormed(code) && n <= |code|
    ensures forall i :: 0 <= i < n && Defines(code[i]) ==>
              code[i].lvalue in Positions(code, n) && Positions(code, n)[code[i].lvalue] == i
    ensures forall x :: x in Positions(code, n) ==>
              && Positions(code, n)[x] < n
              && Defines(code[Positions(code, n)[x]]) && code[Positions(code, n)[x]].lvalue == x
  {
    if n > 0 { PositionsExact(code, n - 1); }
  }

  lemma WellFormedIsSound(code: Code)
    requires WellFormed(code)
    ensures Sound(code, Positions(code, |code|))
  {
    PositionsExact(code, |code|);
  }

  lemma {:induction false} DefinitionIs(code: Code, name: Name, n: nat, j: nat)
    requires j < n <= |code| && Defines(code[j]) && code[j].lvalue == name
    requires forall k :: j < k < n && Defines(code[k]) ==> code[k].lvalue != name
    ensures Definition(code, name, n) == Some(code[j])
  {
    if j < n - 1 { DefinitionIs(code, name, n - 1, j); }
  }

  /** The code of `a.first.option(x)(y)`. */
  function OptionOf(a: Name, f: Name, g: Name, t: Name, u: Name, first: string, option: string): Code {
    [Member(f, a, first), Member(g, f, option), Arg(CALL, None), Call(t, g, None, None),
     Arg(CALL, None), Call(u, t, None, None)]
  }

  /** The code of `a.value.value(x)(y)`: a call with a value to a function named value. */
  function ValueOfValue(a: Name, f: Name, g: Name, t: Name, u: Name): Code {
    OptionOf(a, f, g, t, u, "value", "value")
  }

  /** One round folds `.value(x)` into a VALUE argument and `.gas(x)` into a GAS argument. */
  lemma OptionOnce(a: Name, f: Name, g: Name, t: Name, u: Name, first: string, option: string, kind: Kind, rank: Rank)
    requires f != g && f != t && f != u && g != t && g != u && t != u
    requires (option == "value" && kind == VALUE) || (option == "gas" && kind == GAS)
    requires Sound(OptionOf(a, f, g, t, u, first, option), rank)
    ensures var code := OptionOf(a, f, g, t, u, first, option);
            OnePass(code, rank)
              == [code[0], code[1], Arg(kind, Some(f)), code[4], Call(u, f, Some(FromOther), Some(f))]
  {
    var code := OptionOf(a, f, g, t, u, first, option);
    RefreshedIsSound(code, rank);
    var r := Refreshed(code);
    ReplacementsFall(r, rank, |r|);
    DefinitionIs(code, g, 4, 1);
    DefinitionIs(code, t, 6, 3);
    assert r[3] == Call(t, g, Some(FromMember(f, option)), None) && r[5] == Call(u, t, Some(FromOther), None);
    var v := map[t := f];
    assert r[0] == code[0] && r[1] == code[1] && r[2] == code[2] && r[4] == code[4];
    assert !IsOption(r, 0) && !IsOption(r, 1) && !IsOption(r, 2);
    assert IsOption(r, 3) && !IsOption(r, 4) && !IsOption(r, 5);
    assert Replacements(r, 0) == map[];
    assert Replacements(r, 1) == map[];
    assert Replacements(r, 2) == map[];
    assert Replacements(r, 3) == map[];
    assert Replacements(r, 4) == v && Replacements(r, 5) == v && Replacements(r, 6) == v;
    assert Kept(r, v, rank, 1) == [code[0]];
    assert Kept(r, v, rank, 2) == [code[0], code[1]];
    assert Kept(r, v, rank, 3) == [code[0], code[1], Arg(kind, Some(f))];
    assert Kept(r, v, rank, 4) == [code[0], code[1], Arg(kind, Some(f))];
    assert Kept(r, v, rank, 5) == [code[0], code[1], Arg(kind, Some(f)), code[4]];
  }

  /** `a.foo.gas(x)(y)` and `a.foo.value(x)(y)`, for a function of any other name, in the end: the
      argument x is a gas limit or an amount, y is an ordinary argument, and foo is called. */
  lemma OptionIsFolded(a: Name, f: Name, g: Name, t: Name, u: Name, first: string, option: string, kind: Kind,
                       rank: Rank)
    requires f != g && f != t && f != u && g != t && g != u && t != u && first !in {"value", "gas"}
    requires (option == "value" && kind == VALUE) || (option == "gas" && kind == GAS)
    requires Sound(OptionOf(a, f, g, t, u, first, option), rank)
    ensures var code := OptionOf(a, f, g, t, u, first, option);
            Integrated(code, rank)
              == [code[0], code[1], Arg(kind, Some(f)), code[4], Call(u, f, Some(FromMember(a, first)), Some(f))]
  {
    var code := OptionOf(a, f, g, t, u, first, option);
    OptionOnce(a, f, g, t, u, first, option, kind, rank);
    OnePassIsSound(code, rank);
    AfterOneRound(code, rank);
    FoldedIsLast(a, f, g, t, u, first, option, kind);
    hide OnePass, Refreshed, Sound, HasOption;
  }

  lemma FoldedIsLast(a: Name, f: Name, g: Name, t: Name, u: Name, first: string, option: string, kind: Kind)
    requires f != g && f != u && g != u && first !in {"value", "gas"}
    ensures var code := OptionOf(a, f, g, t, u, first, option);
            var folded := [code[0], code[1], Arg(kind, Some(f)), code[4], Call(u, f, Some(FromOther), Some(f))];
            && Refreshed(folded)
               == [code[0], code[1], Arg(kind, Some(f)), code[4], Call(u, f, Some(FromMember(a, first)), Some(f))]
            && !HasOption(Refreshed(folded))
  {
    var code := OptionOf(a, f, g, t, u, first, option);
    var folded := [code[0], code[1], Arg(kind, Some(f)), code[4], Call(u, f, Some(FromOther), Some(f))];
    DefinitionIs(folded, f, 5, 0);
  }

  /** The real call, in the end to f = a.value, is shadowed, so that nothing in the final code
      defines its result any more. */
  lemma FunctionNamedValueIsTakenForAnOption(a: Name, f: Name, g: Name, t: Name, u: Name)
    requires a != f && a != g && a != t && a != u
    requires f != g && f != t && f != u && g != t && g != u && t != u
    ensures var code := ValueOfValue(a, f, g, t, u);
            var (r, rank) := (Refreshed(code), Positions(code, |code|));
            && WellFormed(code) && Sound(code, rank) && Falling(Replacements(r, |r|), rank)
            && RealCall(r, 5) && Shadowed(r, rank, 5) && !Present(Integrated(code, rank), u)
  {
    var code := ValueOfValue(a, f, g, t, u);
    hide Shadowed, Present, Integrated, Sound, Falling, Replacements, Positions, IsOption;
    ValueOfValueIsWellFormed(a, f, g, t, u);
    WellFormedIsSound(code);
    var rank := Positions(code, |code|);
    RefreshedFalls(code, rank);
    ValueOfValueIsShadowed(a, f, g, t, u, rank);
    ShadowedCallIsLost(code, rank, 5);
  }

  lemma ValueOfValueIsWellFormed(a: Name, f: Name, g: Name, t: Name, u: Name)
    requires a != f && a != g && a != t && a != u
    requires f != g && f != t && f != u && g != t && g != u && t != u
    ensures WellFormed(ValueOfValue(a, f, g, t, u))
  {
  }

  lemma RefreshedFalls(code: Code, rank: Rank)
    requires Sound(code, rank)
    ensures Falling(Replacements(Refreshed(code), |code|), rank)
  {
    RefreshedIsSound(code, rank);
    ReplacementsFall(Refreshed(code), rank, |code|);
  }

  lemma ValueOfValueIsShadowed(a: Name, f: Name, g: Name, t: Name, u: Name, rank: Rank)
    requires a != f && a != g && a != t && a != u
    requires f != g && f != t && f != u && g != t && g != u && t != u
    requires var r := Refreshed(ValueOfValue(a, f, g, t, u)); Falling(Replacements(r, |r|), rank)
    requires Sound(ValueOfValue(a, f, g, t, u), rank)
    ensures Shadowed(Refreshed(ValueOfValue(a, f, g, t, u)), rank, 5)
  {
    var code := ValueOfValue(a, f, g, t, u);
    OptionOnce(a, f, g, t, u, "value", "value", VALUE, rank);
    DefinitionIs(OnePass(code, rank), f, 5, 0);
    DefinitionIs(code, t, 6, 3);
    KeptCount(code, rank, 5, 4);
    TakenNextIff(code, rank, 5);
  }

  /** The last instruction is the last one left. */
  lemma KeptCount(code: Code, rank: Rank, k: nat, q: nat)
    requires Sound(code, rank) && |code| == k + 1 && |OnePass(code, rank)| == q + 1
    requires !IsOption(Refreshed(code), k) && Falling(Replacements(Refreshed(code), |code|), rank)
    ensures |Kept(Refreshed(code), Replacements(Refreshed(code), |code|), rank, k)| == q
  {
  }
}
