/** Exactly when the component pass finds the strongly connected components its name promises. */
module ComponentExactness {
  import opened Collections
  import opened Components
  import opened Graphs

  /** Every component is the strongly connected component of its root. */
  ghost predicate Exact(g: Graph, cs: seq<seq<Node>>) {
    forall i :: 0 <= i < |cs| ==> cs[i] != [] && Elements(cs[i]) == Scc(g, cs[i][0])
  }

  /** The postorder lists some node of n's strongly connected component before all of m's. */
  ghost predicate Precedes(g: Graph, l: seq<Node>, n: Node, m: Node) {
    exists p :: 0 <= p < |l| && Mutual(g, n, l[p]) && forall q :: 0 <= q < |l| && Mutual(g, m, l[q]) ==> p < q
  }

  /** So it is for every edge that leaves a strongly connected component. */
  ghost predicate SourcesFirst(g: Graph, l: seq<Node>) {
    forall n, m :: Edge(g, n, m) && !Reach(g, m, n) ==> Precedes(g, l, n, m)
  }

  /** What the pass establishes about its components and its postorder. */
  ghost predicate Result(g: Graph, cs: seq<seq<Node>>, l: seq<Node>) {
    GraphOk(g) && Built(g, cs, g.sons.Keys) && Along(cs, l) && forall n :: n in g.sons ==> n in l
  }

  // ----- sources first implies exact -----

  /** A path from outside y's component into it has an edge that enters it. */
  lemma {:induction false} Entering(g: Graph, p: seq<Node>, i: nat, y: Node) returns (n: Node, m: Node)
    requires Path(g, p) && i < |p| && !Mutual(g, p[i], y) && Mutual(g, p[|p| - 1], y)
    ensures Edge(g, n, m) && !Mutual(g, n, y) && Mutual(g, m, y) && Reach(g, p[i], n)
    decreases |p| - i
  {
    hide Reach;
    ReachSelf(g, p[i]);
    assert Edge(g, p[i], p[i + 1]);
    if Mutual(g, p[i + 1], y) {
      n, m := p[i], p[i + 1];
    } else {
      n, m := Entering(g, p, i + 1, y);
      ReachEdge(g, p[i], p[i + 1]);
      ReachTrans(g, p[i], p[i + 1], n);
    }
  }

  lemma MutualTrans(g: Graph, x: Node, y: Node, z: Node)
    requires Mutual(g, x, y) && Mutual(g, y, z)
    ensures Mutual(g, x, z)
  {
    hide Reach;
    ReachTrans(g, x, y, z);
    ReachTrans(g, z, y, x);
  }

  /** The entering edge leaves its own component. */
  lemma NoWayBack(g: Graph, n: Node, m: Node, y: Node)
    requires Edge(g, n, m) && !Mutual(g, n, y) && Mutual(g, m, y)
    ensures !Reach(g, m, n)
  {
    hide Reach;
    if Reach(g, m, n) {
      ReachEdge(g, n, m);
      MutualTrans(g, n, m, y);
    }
  }

  /** A node that reaches a node taken earlier was itself taken earlier. */
  lemma TakenEarlier(g: Graph, cs: seq<seq<Node>>, i: nat, x: Node, y: Node)
    requires Built(g, cs, g.sons.Keys) && i < |cs| && y in Taken(cs, i) && x in g.sons && Reach(g, x, y)
    ensures x !in cs[i]
  {
    hide Reach;
    TakenMembers(cs, i, y);
    var k :| 0 <= k < i && y in cs[k];
    assert ComponentOk(g, cs[k], Taken(cs, k));
    ReachTrans(g, x, y, cs[k][0]);
    TakenOrReaching(g, cs, k, x);
    var m :| 0 <= m <= k && x in cs[m];
    NoOverlap(g, cs, i, m, x);
  }

  lemma MemberReturns(g: Graph, cs: seq<seq<Node>>, l: seq<Node>, i: nat, x: Node)
    requires Result(g, cs, l) && SourcesFirst(g, l) && i < |cs| && x in cs[i]
    ensures cs[i] != [] && Mutual(g, x, cs[i][0])
  {
    hide Reach, GraphOk, FatherClosed, SourcesFirst;
    assert ComponentOk(g, cs[i], Taken(cs, i));
    hide *;
    var r := cs[i][0];
    if !Mutual(g, x, r) {
      var n, m := EnteringEdge(g, x, r);
      NoWayBack(g, n, m, r);
      var a := SourceBefore(g, l, n, m, r);
      BeforeRoot(g, cs, l, i, a);
      ReachTrans(g, x, n, l[a]);
      TakenEarlier(g, cs, i, x, l[a]);
    }
  }

  lemma EnteringEdge(g: Graph, x: Node, r: Node) returns (n: Node, m: Node)
    requires Reach(g, x, r) && !Mutual(g, x, r)
    ensures Edge(g, n, m) && !Mutual(g, n, r) && Mutual(g, m, r) && Reach(g, x, n)
  {
    var p := PathTo(g, x, r);
    ReachSelf(g, r);
    n, m := Entering(g, p, 0, r);
  }

  /** Nodes listed before the root of component i were taken before it. */
  lemma BeforeRoot(g: Graph, cs: seq<seq<Node>>, l: seq<Node>, i: nat, a: nat)
    requires Result(g, cs, l) && i < |cs| && cs[i] != [] && a < |l|
    requires forall q :: 0 <= q < |l| && l[q] == cs[i][0] ==> a < q
    ensures l[a] in Taken(cs, i)
  {
    hide Built, GraphOk;
    assert RootListed(cs, l, i);
    var j: nat :| RootAt(cs, l, i, j);
  }

  lemma PathTo(g: Graph, x: Node, y: Node) returns (p: seq<Node>)
    requires Reach(g, x, y)
    ensures Connects(g, p, x, y)
  {
    p :| Connects(g, p, x, y);
  }

  lemma SourceBefore(g: Graph, l: seq<Node>, n: Node, m: Node, r: Node) returns (a: nat)
    requires SourcesFirst(g, l) && Edge(g, n, m) && !Reach(g, m, n) && Mutual(g, m, r)
    ensures a < |l| && Reach(g, n, l[a]) && forall q :: 0 <= q < |l| && l[q] == r ==> a < q
  {
    hide Reach;
    assert Precedes(g, l, n, m);
    a :| 0 <= a < |l| && Mutual(g, n, l[a]) && forall q :: 0 <= q < |l| && Mutual(g, m, l[q]) ==> a < q;
  }

  lemma SourcesFirstIsExact(g: Graph, cs: seq<seq<Node>>, l: seq<Node>)
    requires Result(g, cs, l) && SourcesFirst(g, l)
    ensures Exact(g, cs)
  {
    hide Reach, GraphOk, FatherClosed, SourcesFirst;
    forall i | 0 <= i < |cs| ensures cs[i] != [] && Elements(cs[i]) == Scc(g, cs[i][0]) {
      RootIsMember(g, cs, i);
      var r := cs[i][0];
      forall x ensures x in Elements(cs[i]) <==> x in Scc(g, r) {
        if x in cs[i] {
          assert ComponentOk(g, cs[i], Taken(cs, i));
          MemberReturns(g, cs, l, i, x);
        }
        if x in Scc(g, r) { CyclesStayTogether(g, cs, i, r, x); }
      }
    }
  }

  // ----- exact implies sources first -----

  lemma ExactMember(g: Graph, cs: seq<seq<Node>>, i: nat, x: Node)
    requires Exact(g, cs) && i < |cs|
    ensures cs[i] != [] && (x in cs[i] <==> x in g.sons && Mutual(g, cs[i][0], x))
  {
    hide Reach;
    assert x in cs[i] <==> x in Elements(cs[i]);
  }

  /** The component of an edge's source comes before that of its target. */
  lemma SourceComponent(g: Graph, cs: seq<seq<Node>>, i: nat, n: Node, m: Node) returns (k: nat)
    requires Built(g, cs, g.sons.Keys) && Exact(g, cs) && i < |cs| && m in cs[i] && n in g.sons
    requires Edge(g, n, m) && !Reach(g, m, n)
    ensures k < i && n in cs[k]
  {
    hide Reach, GraphOk, FatherClosed;
    ExactMember(g, cs, i, m);
    ExactMember(g, cs, i, n);
    var r := cs[i][0];
    ReachEdge(g, n, m);
    ReachTrans(g, n, m, r);
    TakenOrReaching(g, cs, i, n);
    k :| 0 <= k <= i && n in cs[k];
    if k == i { ReachTrans(g, m, r, n); }
  }

  /** Nodes of component i are listed after the root of an earlier component k. */
  lemma ListedLater(g: Graph, cs: seq<seq<Node>>, l: seq<Node>, i: nat, k: nat, j: nat, q: nat)
    requires Built(g, cs, g.sons.Keys) && k < i < |cs| && RootAt(cs, l, k, j) && q < |l| && l[q] in cs[i]
    ensures j < q
  {
    hide Reach;
    RootIsMember(g, cs, k);
    if q < j {
      TakenMembers(cs, k, l[q]);
      var h :| 0 <= h < k && l[q] in cs[h];
      NoOverlap(g, cs, i, h, l[q]);
    } else if q == j {
      NoOverlap(g, cs, i, k, l[q]);
    }
  }

  lemma ExactIsSourcesFirst(g: Graph, cs: seq<seq<Node>>, l: seq<Node>)
    requires Result(g, cs, l) && Exact(g, cs) && (forall j :: 0 <= j < |l| ==> l[j] in g.sons)
    ensures SourcesFirst(g, l)
  {
    hide Reach, Exact, Precedes, Built, Along;
    forall n, m | Edge(g, n, m) && !Reach(g, m, n) ensures Precedes(g, l, n, m) {
      SourcePrecedes(g, cs, l, n, m);
    }
  }

  lemma SourcePrecedes(g: Graph, cs: seq<seq<Node>>, l: seq<Node>, n: Node, m: Node)
    requires Result(g, cs, l) && Exact(g, cs) && (forall j :: 0 <= j < |l| ==> l[j] in g.sons)
    requires Edge(g, n, m) && !Reach(g, m, n)
    ensures Precedes(g, l, n, m)
  {
    hide Reach, FatherClosed, Built, Exact, Precedes;
    assert m in g.fathers && m in g.sons && n in g.sons;
    ComponentsPartition(g, cs, m);
    var i :| 0 <= i < |cs| && m in cs[i];
    var k := SourceComponent(g, cs, i, n, m);
    assert RootListed(cs, l, k);
    var j: nat :| RootAt(cs, l, k, j);
    ExactMember(g, cs, k, n);
    hide GraphOk, RootAt, Along;
    forall q | 0 <= q < |l| && Mutual(g, m, l[q]) ensures j < q {
      CyclesStayTogether(g, cs, i, m, l[q]);
      ListedLater(g, cs, l, i, k, j, q);
    }
    FirstOf(g, l, n, m, j);
  }

  lemma FirstOf(g: Graph, l: seq<Node>, n: Node, m: Node, p: nat)
    requires p < |l| && Mutual(g, l[p], n) && forall q :: 0 <= q < |l| && Mutual(g, m, l[q]) ==> p < q
    ensures Precedes(g, l, n, m)
  {
    hide Reach;
    assert Mutual(g, n, l[p]);
  }

  /** On every graph: the components are the strongly connected components exactly when the
      postorder lists the source component of every edge between two of them first. */
  lemma ExactIffSourcesFirst(g: Graph, cs: seq<seq<Node>>, l: seq<Node>)
    requires Result(g, cs, l) && (forall j :: 0 <= j < |l| ==> l[j] in g.sons)
    ensures Exact(g, cs) <==> SourcesFirst(g, l)
  {
    hide *;
    if Exact(g, cs) { ExactIsSourcesFirst(g, cs, l); }
    if SourcesFirst(g, l) { SourcesFirstIsExact(g, cs, l); }
  }

  // ----- counting -----

  /** The number of components is right exactly when the components are. */
  lemma CountIffExact(g: Graph, cs: seq<seq<Node>>)
    requires Built(g, cs, g.sons.Keys)
    ensures |cs| == |Sccs(g)| <==> Exact(g, cs)
  {
    hide Reach, Scc, ComponentOk;
    forall i | 0 <= i < |cs| ensures cs[i] != [] { RootIsMember(g, cs, i); }
    RootSccsCount(g, cs);
    var roots := Elements(RootSccs(g, cs));
    if |cs| == |Sccs(g)| {
      SameSize(roots, Sccs(g));
      AllRootsIsExact(g, cs);
    }
    if Exact(g, cs) {
      ExactIsAllRoots(g, cs);
    }
  }

  lemma AllRootsIsExact(g: Graph, cs: seq<seq<Node>>)
    requires Built(g, cs, g.sons.Keys) && forall i :: 0 <= i < |cs| ==> cs[i] != []
    requires Elements(RootSccs(g, cs)) == Sccs(g)
    ensures Exact(g, cs)
  {
    hide Reach;
    forall i | 0 <= i < |cs| ensures cs[i] != [] && Elements(cs[i]) == Scc(g, cs[i][0]) {
      RootIsMember(g, cs, i);
      forall x ensures x in Elements(cs[i]) <==> x in Scc(g, cs[i][0]) {
        if x in Scc(g, cs[i][0]) { CyclesStayTogether(g, cs, i, cs[i][0], x); }
        if x in cs[i] { InRootScc(g, cs, i, x); }
      }
    }
  }

  lemma InRootScc(g: Graph, cs: seq<seq<Node>>, i: nat, x: Node)
    requires Built(g, cs, g.sons.Keys) && (forall i :: 0 <= i < |cs| ==> cs[i] != [])
    requires Elements(RootSccs(g, cs)) == Sccs(g) && i < |cs| && x in cs[i]
    ensures x in Scc(g, cs[i][0])
  {
    hide *;
    MemberIsNode(g, cs, i, x);
    var k := SomeRootScc(g, cs, x);
    RootIsMember(g, cs, k);
    CyclesStayTogether(g, cs, i, x, cs[k][0]);
    if k < i { NoOverlap(g, cs, i, k, cs[k][0]); }
    if i < k { NoOverlap(g, cs, k, i, cs[k][0]); }
  }

  lemma MemberIsNode(g: Graph, cs: seq<seq<Node>>, i: nat, x: Node)
    requires Built(g, cs, g.sons.Keys) && i < |cs| && x in cs[i]
    ensures x in g.sons
  {
    hide Reach, FatherClosed;
    assert ComponentOk(g, cs[i], Taken(cs, i));
  }

  lemma SomeRootScc(g: Graph, cs: seq<seq<Node>>, x: Node) returns (k: nat)
    requires (forall i :: 0 <= i < |cs| ==> cs[i] != []) && Elements(RootSccs(g, cs)) == Sccs(g) && x in g.sons
    ensures k < |cs| && x in Scc(g, cs[k][0]) && Mutual(g, x, cs[k][0])
  {
    hide Reach;
    ReachSelf(g, x);
    assert x in Scc(g, x);
    hide Scc, Mutual;
    assert Scc(g, x) in Elements(RootSccs(g, cs));
    k :| 0 <= k < |cs| && RootSccs(g, cs)[k] == Scc(g, x);
    MemberIsMutual(g, cs[k][0], x);
  }

  lemma MemberIsMutual(g: Graph, n: Node, x: Node)
    requires x in Scc(g, n)
    ensures Mutual(g, x, n)
  {
    hide Reach;
  }

  lemma ExactIsAllRoots(g: Graph, cs: seq<seq<Node>>)
    requires Built(g, cs, g.sons.Keys) && Exact(g, cs) && forall i :: 0 <= i < |cs| ==> cs[i] != []
    ensures Elements(RootSccs(g, cs)) == Sccs(g)
  {
    hide Reach, ComponentOk;
    RootSccsCount(g, cs);
    forall c | c in Sccs(g) ensures c in Elements(RootSccs(g, cs)) {
      var n :| n in g.sons && c == Scc(g, n);
      ComponentsPartition(g, cs, n);
      var i :| 0 <= i < |cs| && n in cs[i];
      ExactMember(g, cs, i, n);
      SameScc(g, cs[i][0], n);
      assert RootSccs(g, cs)[i] == c;
    }
  }

  /** Without an edge between different strongly connected components the pass is exact. */
  lemma NoCrossingIsExact(g: Graph, cs: seq<seq<Node>>, l: seq<Node>)
    requires Result(g, cs, l) && (forall n, m :: Edge(g, n, m) ==> Reach(g, m, n))
    ensures Exact(g, cs) && |cs| == |Sccs(g)|
  {
    hide Exact, Built, Along, GraphOk, Reach;
    assert SourcesFirst(g, l);
    SourcesFirstIsExact(g, cs, l);
    CountIffExact(g, cs);
  }
}
