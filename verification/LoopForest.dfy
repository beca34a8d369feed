/** The loops of a flow graph: strongly connected components with one entering block, found again inside each loop
    once its header is taken away. */
module LoopForest {
  import opened Basics
  import opened Graphs
  import opened Components

  /** Blocks of `c` that control can enter it by. */
  function Candidates(g: Cfg, c: set<Block>): (r: set<Block>) {
    set n | n in c && n < |g.preds| && EnteredFromOutside(g, c, n)
  }

  predicate EnteredFromOutside(g: Cfg, c: set<Block>, n: Block)
    requires n < |g.preds|
  {
    exists p :: p in g.preds[n] && (p == ENTRY || p !in c)
  }

  /** A component with a cycle in it. */
  predicate IsLoop(g: Cfg, c: set<Block>) {
    c != {} && (|c| > 1 || exists n :: n in c && g.Edge(n, n))
  }

  ghost predicate LoopIn(g: Cfg, nodes: set<Block>, c: set<Block>, base: Block) {
    IsScc(g, nodes, c) && IsLoop(g, c) && Candidates(g, c) == {base}
  }

  ghost function SccOf(g: Cfg, nodes: set<Block>, x: Block): set<Block> {
    set y | y in nodes && Linked(g, nodes, x, y)
  }

  lemma SccOfIsScc(g: Cfg, nodes: set<Block>, x: Block)
    requires x in nodes
    ensures IsScc(g, nodes, SccOf(g, nodes, x)) && x in SccOf(g, nodes, x)
  {
    hide Reach;
    ReachSelf(g, nodes, x);
    var c := SccOf(g, nodes, x);
    forall y: Block, z: Block | y in c
      ensures z in c <==> Linked(g, nodes, y, z)
    {
      if z in c {
        ReachTrans(g, nodes, y, x, z);
        ReachTrans(g, nodes, z, x, y);
      }
      if Linked(g, nodes, y, z) {
        ReachTrans(g, nodes, x, y, z);
        ReachTrans(g, nodes, z, y, x);
        ReachInside(g, nodes, x, z);
      }
    }
    assert x in c;
    assert c <= nodes;
    assert c != {};
  }

  /** What is left for the next round: the blocks of loops, without the loops' headers. */
  ghost function Rest(g: Cfg, nodes: set<Block>): (r: set<Block>)
    ensures r <= nodes
  {
    set x | x in nodes && Stays(g, nodes, x)
  }

  ghost predicate Stays(g: Cfg, nodes: set<Block>, x: Block) {
    exists base :: LoopIn(g, nodes, SccOf(g, nodes, x), base) && x != base
  }

  /** Every round takes something away. */
  lemma RestSmaller(g: Cfg, nodes: set<Block>)
    requires nodes != {}
    ensures Rest(g, nodes) < nodes
  {
    hide IsScc, IsLoop, Reach;
    var x :| x in nodes;
    SccOfIsScc(g, nodes, x);
    if x in Rest(g, nodes) {
      var base :| LoopIn(g, nodes, SccOf(g, nodes, x), base) && x != base;
      SameScc(g, nodes, x, base);
      assert base !in Rest(g, nodes);
      assert base in nodes;
    }
  }

  lemma SameScc(g: Cfg, nodes: set<Block>, x: Block, base: Block)
    requires x in nodes && LoopIn(g, nodes, SccOf(g, nodes, x), base)
    ensures base in nodes && SccOf(g, nodes, base) == SccOf(g, nodes, x) && !Stays(g, nodes, base)
  {
    hide Reach, IsLoop;
    var c := SccOf(g, nodes, x);
    assert base in Candidates(g, c);
    assert base in c;
    SccOfIsScc(g, nodes, base);
    SccsDisjoint(g, nodes, c, SccOf(g, nodes, base), base);
    forall k | LoopIn(g, nodes, c, k)
      ensures k == base
    {
      assert k in {base};
    }
  }

  /** `c` is one of the loops that peeling finds in `nodes`, with header `base`. */
  ghost predicate IsRecorded(g: Cfg, nodes: set<Block>, c: set<Block>, base: Block)
    decreases nodes
  {
    LoopIn(g, nodes, c, base) ||
    (nodes != {} && (RestSmaller(g, nodes); IsRecorded(g, Rest(g, nodes), c, base)))
  }

  /** A recorded loop was a component of some induced subgraph. */
  lemma {:induction false} RecordedWhere(g: Cfg, nodes: set<Block>, c: set<Block>, base: Block) returns (r: set<Block>)
    requires IsRecorded(g, nodes, c, base)
    ensures r <= nodes && LoopIn(g, r, c, base)
    decreases nodes
  {
    if LoopIn(g, nodes, c, base) {
      r := nodes;
    } else {
      RestSmaller(g, nodes);
      r := RecordedWhere(g, Rest(g, nodes), c, base);
    }
  }

  /** The blocks of a component reach each other without leaving it. */
  lemma SccInside(g: Cfg, nodes: set<Block>, c: set<Block>, x: Block, y: Block)
    requires IsScc(g, nodes, c) && x in c && y in c
    ensures Reach(g, c, x, y)
  {
    assert Linked(g, nodes, x, y);
    var p :| WalkBetween(g, nodes, p, x, y);
    forall i | 0 <= i < |p|
      ensures p[i] in c
    {
      assert WalkBetween(g, nodes, p[..i + 1], x, p[i]);
      assert WalkBetween(g, nodes, p[i..], p[i], y);
      ReachTrans(g, nodes, p[i], y, x);
    }
    assert WalkBetween(g, c, p, x, y);
  }

  /** A recorded loop is strongly connected, has a cycle, and can be entered only by its base. */
  lemma RecordedLoop(g: Cfg, nodes: set<Block>, c: set<Block>, base: Block)
    requires g.Valid() && IsRecorded(g, nodes, c, base) && forall x :: x in nodes ==> x < g.Size()
    ensures base in c && c <= nodes && IsLoop(g, c)
    ensures forall x, y :: x in c && y in c ==> Reach(g, c, x, y)
    ensures forall a, b :: g.Edge(a, b) && a !in c && b in c ==> b == base
  {
    hide Reach, IsLoop;
    var r := RecordedWhere(g, nodes, c, base);
    assert base in Candidates(g, c);
    forall x, y | x in c && y in c
      ensures Reach(g, c, x, y)
    {
      SccInside(g, r, c, x, y);
    }
    forall a: Block, b: Block | g.Edge(a, b) && a !in c && b in c
      ensures b == base
    {
      assert a in g.preds[b];
      assert b in Candidates(g, c);
    }
  }

  /** A connected set that meets a component of a larger graph lies in it. */
  lemma ConnectedInScc(g: Cfg, nodes: set<Block>, c: set<Block>, inner: set<Block>, d: set<Block>, x: Block)
    requires IsScc(g, nodes, c) && inner <= nodes && IsScc(g, inner, d) && x in c && x in d
    ensures d <= c
  {
    hide Reach;
    forall y | y in d
      ensures y in c
    {
      assert Linked(g, inner, x, y);
      ReachMono(g, inner, nodes, x, y);
      ReachMono(g, inner, nodes, y, x);
    }
  }

  /** Two loops: equal, or one inside the other without the outer one's base, or disjoint. */
  lemma {:induction false} NestedOrDisjoint(g: Cfg, nodes: set<Block>, c: set<Block>, base: Block, d: set<Block>,
                                            base': Block)
    requires IsRecorded(g, nodes, c, base) && IsRecorded(g, nodes, d, base')
    ensures (c == d && base == base') || c !! d || (d < c && base !in d) || (c < d && base' !in c)
    decreases nodes
  {
    hide IsScc, IsLoop;
    if LoopIn(g, nodes, c, base) {
      OuterOrDisjoint(g, nodes, c, base, d, base');
    } else if LoopIn(g, nodes, d, base') {
      OuterOrDisjoint(g, nodes, d, base', c, base);
    } else {
      RestSmaller(g, nodes);
      NestedOrDisjoint(g, Rest(g, nodes), c, base, d, base');
    }
  }

  lemma OuterOrDisjoint(g: Cfg, nodes: set<Block>, c: set<Block>, base: Block, d: set<Block>, base': Block)
    requires LoopIn(g, nodes, c, base) && IsRecorded(g, nodes, d, base')
    ensures (c == d && base == base') || c !! d || (d < c && base !in d)
  {
    hide IsLoop, Reach;
    assert base in Candidates(g, c);
    if LoopIn(g, nodes, d, base') {
      if x :| x in c && x in d {
        SccsDisjoint(g, nodes, c, d, x);
        assert {base} == {base'};
        assert base in {base'};
      }
    } else {
      var r := InRest(g, nodes, d, base');
      BaseGone(g, nodes, c, base);
      assert base !in d;
      if x :| x in c && x in d {
        ConnectedInScc(g, nodes, c, r, d, x);
      }
    }
  }

  lemma InRest(g: Cfg, nodes: set<Block>, d: set<Block>, base: Block) returns (r: set<Block>)
    requires IsRecorded(g, nodes, d, base) && !LoopIn(g, nodes, d, base)
    ensures r <= Rest(g, nodes) && IsScc(g, r, d)
  {
    hide Rest, IsScc;
    RestSmaller(g, nodes);
    r := RecordedWhere(g, Rest(g, nodes), d, base);
  }

  lemma BaseGone(g: Cfg, nodes: set<Block>, c: set<Block>, base: Block)
    requires LoopIn(g, nodes, c, base)
    ensures base in c && base !in Rest(g, nodes)
  {
    hide IsLoop, Reach;
    assert base in Candidates(g, c);
    SccOfIsScc(g, nodes, base);
    SccsDisjoint(g, nodes, c, SccOf(g, nodes, base), base);
    SameScc(g, nodes, base, base);
  }

  /** Different loops have different bases. */
  lemma BasesDiffer(g: Cfg, nodes: set<Block>, c: set<Block>, d: set<Block>, base: Block)
    requires IsRecorded(g, nodes, c, base) && IsRecorded(g, nodes, d, base)
    ensures c == d
  {
    var r := RecordedWhere(g, nodes, c, base);
    assert base in Candidates(g, c);
    var s := RecordedWhere(g, nodes, d, base);
    assert base in Candidates(g, d);
    NestedOrDisjoint(g, nodes, c, base, d, base);
  }

  /** The base of a loop dominates all its blocks, when nothing jumps back to the entry block. */
  lemma BaseDominates(g: Cfg, nodes: set<Block>, c: set<Block>, base: Block, b: Block)
    requires g.Valid() && g.preds[ENTRY] == [] && (forall x :: x in nodes ==> x < g.Size())
    requires IsRecorded(g, nodes, c, base) && b in c
    ensures g.Dominates(base, b)
  {
    hide Reach, IsLoop, IsRecorded;
    RecordedLoop(g, nodes, c, base);
    LoopWithoutEntry(g, nodes, c, base);
    forall p | g.PathTo(p, b)
      ensures base in p
    {
      EnteredByBase(g, c, base, p, b);
    }
  }

  lemma LoopWithoutEntry(g: Cfg, nodes: set<Block>, c: set<Block>, base: Block)
    requires g.Valid() && g.preds[ENTRY] == [] && (forall x :: x in nodes ==> x < g.Size())
    requires IsRecorded(g, nodes, c, base)
    ensures ENTRY !in c
  {
    var r := RecordedWhere(g, nodes, c, base);
    assert forall a: Block :: !g.Edge(a, ENTRY);
    if ENTRY in c {
      var a := PredInside(g, r, c, ENTRY);
    }
  }

  /** Every block of a loop has a predecessor in it. */
  lemma PredInside(g: Cfg, nodes: set<Block>, c: set<Block>, x: Block) returns (a: Block)
    requires IsScc(g, nodes, c) && IsLoop(g, c) && x in c
    ensures a in c && g.Edge(a, x)
  {
    if y :| y in c && y != x {
      SccInside(g, nodes, c, y, x);
      var p :| WalkBetween(g, c, p, y, x);
      a := p[|p| - 2];
    } else {
      SubsetSize(c, {x});
      a :| a in c && g.Edge(a, a);
    }
  }

  lemma {:induction false} EnteredByBase(g: Cfg, c: set<Block>, base: Block, p: seq<Block>, b: Block)
    requires g.Valid() && g.PathTo(p, b) && b in c && ENTRY !in c
    requires forall x, y :: g.Edge(x, y) && x !in c && y in c ==> y == base
    ensures base in p
    decreases |p|
  {
    if |p| > 1 && b != base {
      EnteredByBase(g, c, base, p[..|p| - 1], p[|p| - 2]);
    }
  }

  // ----- one round of peeling -----

  /** No component of the graph that `nodes` induce straddles `d`. */
  ghost predicate Splits(g: Cfg, nodes: set<Block>, d: set<Block>) {
    forall x, y {:trigger Linked(g, nodes, x, y)} :: x in d && Linked(g, nodes, x, y) ==> y in d
  }

  lemma SplitsFewer(g: Cfg, nodes: set<Block>, fewer: set<Block>, d: set<Block>)
    requires Splits(g, nodes, d) && fewer <= nodes
    ensures Splits(g, fewer, d)
  {
    hide Reach;
    forall x: Block, y: Block | x in d && Linked(g, fewer, x, y)
      ensures y in d
    {
      ReachMono(g, fewer, nodes, x, y);
      ReachMono(g, fewer, nodes, y, x);
      assert Linked(g, nodes, x, y);
    }
  }

  lemma SccSplits(g: Cfg, nodes: set<Block>, d: set<Block>)
    requires IsScc(g, nodes, d)
    ensures Splits(g, nodes, d)
  {
  }

  lemma InsideOrOutside(g: Cfg, nodes: set<Block>, d: set<Block>, c: set<Block>)
    requires Splits(g, nodes, d) && IsScc(g, nodes, c)
    ensures c <= d || c !! d
  {
    hide Reach;
    if x :| x in c && x in d {
      forall y | y in c
        ensures y in d
      {
        assert Linked(g, nodes, x, y);
      }
    }
  }

  /** `x` leaves together with the component `c`: as the header of a loop, or because `c` is no loop. */
  ghost predicate Removed(g: Cfg, nodes: set<Block>, c: set<Block>, x: Block) {
    x in c && !exists base :: LoopIn(g, nodes, c, base) && x != base
  }

  lemma RestIsNotRemoved(g: Cfg, nodes: set<Block>, sccs: set<set<Block>>, gone: set<Block>)
    requires forall c :: c in sccs <==> IsScc(g, nodes, c)
    requires forall x :: x in gone <==> exists c :: c in sccs && Removed(g, nodes, c, x)
    ensures nodes - gone == Rest(g, nodes)
  {
    hide IsScc, IsLoop, Reach;
    forall x: Block | x in nodes
      ensures x in gone <==> !Stays(g, nodes, x)
    {
      var c := SccOf(g, nodes, x);
      SccOfIsScc(g, nodes, x);
      assert c in sccs;
      forall d | d in sccs && x in d
        ensures d == c
      {
        SccsDisjoint(g, nodes, c, d, x);
      }
      assert Removed(g, nodes, c, x) <==> !Stays(g, nodes, x);
    }
  }

  lemma NothingLeft(g: Cfg, nodes: set<Block>)
    requires forall c :: !IsScc(g, nodes, c)
    ensures nodes == {} && forall c, base :: !IsRecorded(g, nodes, c, base)
  {
    hide IsScc, Reach;
    if x :| x in nodes {
      SccOfIsScc(g, nodes, x);
    }
  }
}
