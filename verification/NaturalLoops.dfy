/** On reducible flow graphs, peeling finds every natural loop. */
module NaturalLoops {
  import opened Basics
  import opened Graphs
  import opened Components
  import opened LoopForest

  ghost predicate Connected(g: Cfg, c: set<Block>) {
    forall x, y :: x in c && y in c ==> Reach(g, c, x, y)
  }

  /** One of the blocks dominates them all. */
  ghost predicate Headed(g: Cfg, c: set<Block>) {
    exists h :: h in c && DominatesAll(g, h, c)
  }

  ghost predicate DominatesAll(g: Cfg, h: Block, c: set<Block>) {
    forall x :: x in c ==> g.Dominates(h, x)
  }

  /** Every strongly connected set of blocks with a cycle has a block that dominates it. */
  ghost predicate Reducible(g: Cfg) {
    forall c :: c <= Below(g.Size()) && IsLoop(g, c) && Connected(g, c) ==> Headed(g, c)
  }

  /** The blocks that are left after `k` rounds of peeling. */
  ghost function After(g: Cfg, k: nat): (nodes: set<Block>)
    ensures nodes <= Below(g.Size())
  {
    if k == 0 then Below(g.Size()) else Rest(g, After(g, k - 1))
  }

  /** Peeling never meets a component with a cycle that it cannot record. */
  ghost predicate AllRecorded(g: Cfg) {
    forall k: nat, c {:trigger IsScc(g, After(g, k), c)} :: IsScc(g, After(g, k), c) && IsLoop(g, c) ==> OneEntry(g, c)
  }

  ghost predicate OneEntry(g: Cfg, c: set<Block>) {
    exists h :: Candidates(g, c) == {h}
  }

  /** The natural loop of an edge from `a` back to its dominator `h`: the blocks that reach `a` without going
      through `h`, and `h`. */
  ghost predicate InNatural(g: Cfg, a: Block, h: Block, x: Block) {
    x == h || Reach(g, Below(g.Size()) - {h}, x, a)
  }

  ghost function Natural(g: Cfg, a: Block, h: Block): (n: set<Block>)
    requires h < g.Size()
    ensures forall x :: x in n <==> InNatural(g, a, h, x)
  {
    var n := set x | x in Below(g.Size()) && InNatural(g, a, h, x);
    assert forall x :: InNatural(g, a, h, x) ==> x in n by {
      forall x | InNatural(g, a, h, x)
        ensures x in n
      {
        if x != h {
          ReachInside(g, Below(g.Size()) - {h}, x, a);
        }
      }
    }
    n
  }

  ghost predicate BackEdge(g: Cfg, a: Block, h: Block) {
    g.Valid() && g.Edge(a, h) && a < g.Size() && g.Dominates(h, a)
  }

  /** Predecessors of a block of the natural loop other than `h` are in the loop. */
  lemma NaturalPreds(g: Cfg, a: Block, h: Block, p: Block, x: Block)
    requires BackEdge(g, a, h) && InNatural(g, a, h, x) && x != h && g.Edge(p, x) && p < g.Size()
    ensures InNatural(g, a, h, p)
  {
    var others := Below(g.Size()) - {h};
    ReachInside(g, others, x, a);
    if p != h {
      ReachEdge(g, others, p, x);
      ReachTrans(g, others, p, x, a);
    }
  }

  /** The blocks of a natural loop reach its edge inside it. */
  lemma {:induction false} ReachesEdge(g: Cfg, a: Block, h: Block, p: seq<Block>, x: Block)
    requires BackEdge(g, a, h) && WalkBetween(g, Below(g.Size()) - {h}, p, x, a)
    ensures Reach(g, Natural(g, a, h), x, a)
    decreases |p|
  {
    var others := Below(g.Size()) - {h};
    assert Reach(g, others, x, a);
    if |p| == 1 {
      ReachSelf(g, Natural(g, a, h), x);
    } else {
      assert WalkBetween(g, others, p[1..], p[1], a);
      assert Reach(g, others, p[1], a);
      ReachesEdge(g, a, h, p[1..], p[1]);
      assert p[1] in Natural(g, a, h);
      ReachEdge(g, Natural(g, a, h), x, p[1]);
      ReachTrans(g, Natural(g, a, h), x, p[1], a);
    }
  }

  /** A walk from the entry to a block of the loop passes `h`, and from there on stays in the loop. */
  lemma {:induction false} ReachedFromHeader(g: Cfg, a: Block, h: Block, p: seq<Block>, x: Block)
    requires BackEdge(g, a, h) && g.PathTo(p, x) && InNatural(g, a, h, x)
    ensures Reach(g, Natural(g, a, h), h, x)
    decreases |p|
  {
    var n := Natural(g, a, h);
    if x == h {
      ReachSelf(g, n, h);
    } else if |p| == 1 {
      EntryNotInside(g, a, h, x);
    } else {
      var y := p[|p| - 2];
      NaturalPreds(g, a, h, y, x);
      ReachedFromHeader(g, a, h, p[..|p| - 1], y);
      ReachEdge(g, n, y, x);
      ReachTrans(g, n, h, y, x);
    }
  }

  /** A block other than `h` that reaches `a` around `h` is not the entry, since `h` dominates `a`. */
  lemma EntryNotInside(g: Cfg, a: Block, h: Block, x: Block)
    requires BackEdge(g, a, h) && x != h && InNatural(g, a, h, x)
    ensures x != ENTRY
  {
    var w :| WalkBetween(g, Below(g.Size()) - {h}, w, x, a);
    if x == ENTRY {
      WalkIsPath(g, Below(g.Size()) - {h}, w, a);
    }
  }

  lemma {:induction false} WalkIsPath(g: Cfg, nodes: set<Block>, w: seq<Block>, b: Block)
    requires WalkBetween(g, nodes, w, ENTRY, b) && nodes <= Below(g.Size())
    ensures g.PathTo(w, b)
    decreases |w|
  {
    if |w| > 1 {
      assert WalkBetween(g, nodes, w[..|w| - 1], ENTRY, w[|w| - 2]);
      WalkIsPath(g, nodes, w[..|w| - 1], w[|w| - 2]);
    }
  }

  /** A natural loop is strongly connected. */
  lemma NaturalConnected(g: Cfg, a: Block, h: Block, x: Block)
    requires BackEdge(g, a, h) && InNatural(g, a, h, x)
    requires forall b: Block :: b < g.Size() ==> g.Reachable(b)
    ensures Linked(g, Natural(g, a, h), h, x)
  {
    var n := Natural(g, a, h);
    HeaderReaches(g, a, h, x);
    HeaderReaches(g, a, h, a);
    if x == h {
      ReachSelf(g, n, h);
    } else {
      var p :| WalkBetween(g, Below(g.Size()) - {h}, p, x, a);
      ReachesEdge(g, a, h, p, x);
      ReachEdge(g, n, a, h);
      ReachTrans(g, n, x, a, h);
    }
  }

  lemma HeaderReaches(g: Cfg, a: Block, h: Block, x: Block)
    requires BackEdge(g, a, h) && (InNatural(g, a, h, x) || x == a)
    requires forall b: Block :: b < g.Size() ==> g.Reachable(b)
    ensures InNatural(g, a, h, x) && Reach(g, Natural(g, a, h), h, x)
  {
    if x != h {
      if x == a {
        ReachSelf(g, Below(g.Size()) - {h}, a);
      }
      ReachInside(g, Below(g.Size()) - {h}, x, a);
    }
    assert x < g.Size() && g.Reachable(x);
    var p :| g.PathTo(p, x);
    ReachedFromHeader(g, a, h, p, x);
  }

  /** The component around a natural loop has a cycle. */
  lemma AroundNatural(g: Cfg, a: Block, h: Block, nodes: set<Block>)
    requires BackEdge(g, a, h) && Natural(g, a, h) <= nodes && forall b: Block :: b < g.Size() ==> g.Reachable(b)
    ensures IsLoop(g, SccOf(g, nodes, h)) && Natural(g, a, h) <= SccOf(g, nodes, h)
  {
    hide Reach;
    var n, c := Natural(g, a, h), SccOf(g, nodes, h);
    forall x | x in n
      ensures x in c
    {
      NaturalConnected(g, a, h, x);
      ReachMono(g, n, nodes, h, x);
      ReachMono(g, n, nodes, x, h);
    }
    HeaderReaches(g, a, h, a);
    assert a in c && h in c;
    if a == h {
      assert g.Edge(h, h);
    } else {
      SubsetSize({a, h}, c);
    }
  }

  /** A region's only entry, if it is not `h`, lies outside the natural loop. */
  lemma EntryOutside(g: Cfg, a: Block, h: Block, c: set<Block>, k: Block)
    requires BackEdge(g, a, h) && Natural(g, a, h) <= c && c <= Below(g.Size()) && ENTRY !in c
    requires Candidates(g, c) == {k} && k != h
    ensures k !in Natural(g, a, h)
  {
    assert k in Candidates(g, c);
    var p :| p in g.preds[k] && (p == ENTRY || p !in c);
    assert p !in c;
    if k in Natural(g, a, h) {
      assert g.Edge(p, k);
      NaturalPreds(g, a, h, p, k);
    }
  }

  // ----- components that peeling meets -----

  /** The last visit of `h` on a walk from the entry splits off a walk that does not come back to it. */
  lemma {:induction false} LastVisit(g: Cfg, p: seq<Block>, h: Block, x: Block) returns (w: seq<Block>)
    requires g.PathTo(p, x) && h in p
    ensures WalkBetween(g, Below(g.Size()), w, h, x) && forall i :: 0 < i < |w| ==> w[i] != h
    decreases |p|
  {
    if x == h {
      w := [h];
    } else {
      var y := p[|p| - 2];
      var v := LastVisit(g, p[..|p| - 1], h, y);
      w := v + [x];
    }
  }

  /** A block that a walk away from `h` passes does not dominate `h`, if `h` dominates the end of the walk. */
  lemma NoDominatorOnWalk(g: Cfg, h: Block, w: seq<Block>, p: Block, i: nat)
    requires WalkBetween(g, Below(g.Size()), w, h, p) && (forall j :: 0 < j < |w| ==> w[j] != h)
    requires g.Dominates(h, p) && 0 < i < |w| && g.Reachable(h)
    ensures !g.Dominates(w[i], h)
  {
    if g.Dominates(w[i], h) {
      var q :| g.PathTo(q, h);
      var v := ShortWay(g, w[i], h, q);
      AroundHeader(g, h, w, p, i, v);
      assert false;
    }
  }

  /** To a strict dominator of `h` there is a way around `h`. */
  lemma {:induction false} ShortWay(g: Cfg, z: Block, h: Block, q: seq<Block>) returns (v: seq<Block>)
    requires g.Dominates(z, h) && z != h && g.PathTo(q, h)
    ensures g.PathTo(v, z) && h !in v
    decreases |q|
  {
    var i :| 0 <= i < |q| && q[i] == z;
    PathPrefix(g, q, h, i);
    v := q[..i + 1];
    if h in v {
      var j :| 0 <= j < |v| && v[j] == h;
      PathPrefix(g, q, h, j);
      v := ShortWay(g, z, h, q[..j + 1]);
    }
  }

  lemma {:induction false} AroundHeader(g: Cfg, h: Block, w: seq<Block>, p: Block, i: nat, v: seq<Block>)
    requires WalkBetween(g, Below(g.Size()), w, h, p) && (forall j :: 0 < j < |w| ==> w[j] != h)
    requires 0 < i < |w| && g.PathTo(v, w[i]) && h !in v
    ensures !g.Dominates(h, p)
    decreases |w| - i
  {
    if i == |w| - 1 {
      assert g.PathTo(v, p);
    } else {
      PathExtend(g, v, w[i], w[i + 1]);
      AroundHeader(g, h, w, p, i + 1, v + [w[i + 1]]);
    }
  }

  /** Peeling that keeps a cycle's dominating block has not yet taken away any block of the cycle. */
  lemma {:induction false} CycleStays(g: Cfg, k: nat, h: Block, w: seq<Block>, p: Block)
    requires g.Valid() && g.preds[ENTRY] == [] && g.Reachable(h) && g.Dominates(h, p)
    requires WalkBetween(g, Below(g.Size()), w, h, p) && (forall j :: 0 < j < |w| ==> w[j] != h)
    requires h in After(g, k) && exists n :: g.Edge(p, n) && Reach(g, After(g, k), n, h)
    ensures Walk(g, After(g, k), w)
    decreases k
  {
    hide Reach, LoopIn;
    if k > 0 {
      var before, now := After(g, k - 1), After(g, k);
      var n :| g.Edge(p, n) && Reach(g, now, n, h);
      ReachMono(g, now, before, n, h);
      CycleStays(g, k - 1, h, w, p);
      assert h in Rest(g, before);
      var base :| LoopIn(g, before, SccOf(g, before, h), base) && h != base;
      forall i | 0 <= i < |w|
        ensures w[i] in now
      {
        OnCycle(g, before, h, w, p, n, i);
        SccOfIsScc(g, before, h);
        SccOfIsScc(g, before, w[i]);
        SccsDisjoint(g, before, SccOf(g, before, h), SccOf(g, before, w[i]), w[i]);
        if w[i] == base {
          BaseDominates(g, before, SccOf(g, before, h), base, h);
          NoDominatorOnWalk(g, h, w, p, i);
          assert false;
        }
        assert Stays(g, before, w[i]);
      }
    }
  }

  lemma OnCycle(g: Cfg, nodes: set<Block>, h: Block, w: seq<Block>, p: Block, n: Block, i: nat)
    requires WalkBetween(g, nodes, w, h, p) && g.Edge(p, n) && Reach(g, nodes, n, h) && i < |w|
    ensures w[i] in SccOf(g, nodes, h)
  {
    assert WalkBetween(g, nodes, w[..i + 1], h, w[i]);
    assert WalkBetween(g, nodes, w[i..], w[i], p);
    ReachInside(g, nodes, n, h);
    ReachEdge(g, nodes, p, n);
    ReachTrans(g, nodes, w[i], p, n);
    ReachTrans(g, nodes, w[i], n, h);
  }

  /** A component that peeling meets is entered only by the block that dominates it. */
  lemma OnlyHeaderEntered(g: Cfg, k: nat, c: set<Block>, h: Block, n: Block)
    requires g.Valid() && g.preds[ENTRY] == [] && forall b: Block :: b < g.Size() ==> g.Reachable(b)
    requires IsScc(g, After(g, k), c) && IsLoop(g, c) && h in c && DominatesAll(g, h, c)
    requires n in Candidates(g, c)
    ensures n == h
  {
    hide IsLoop, Reach;
    var nodes := After(g, k);
    var p :| p in g.preds[n] && (p == ENTRY || p !in c);
    assert g.Edge(p, n) && p < g.Size();
    if n != h {
      NoEntryIn(g, nodes, c);
      StrictDominatorOfPred(g, h, p, n);
      assert g.Reachable(p);
      var q :| g.PathTo(q, p);
      var w := LastVisit(g, q, h, p);
      assert Linked(g, nodes, n, h);
      CycleStays(g, k, h, w, p);
      OnCycle(g, nodes, h, w, p, n, |w| - 1);
    }
  }

  lemma NoEntryIn(g: Cfg, nodes: set<Block>, c: set<Block>)
    requires g.Valid() && g.preds[ENTRY] == [] && IsScc(g, nodes, c) && IsLoop(g, c)
    ensures ENTRY !in c
  {
    if ENTRY in c {
      var a := PredInside(g, nodes, c, ENTRY);
      assert false;
    }
  }

  /** Every walk into the component comes in somewhere. */
  lemma {:induction false} EntersSomewhere(g: Cfg, c: set<Block>, p: seq<Block>, x: Block) returns (n: Block)
    requires g.Valid() && g.PathTo(p, x) && x in c && ENTRY !in c
    ensures n in Candidates(g, c)
    decreases |p|
  {
    var y := p[|p| - 2];
    if y in c {
      n := EntersSomewhere(g, c, p[..|p| - 1], y);
    } else {
      n := x;
      assert y in g.preds[x];
    }
  }

  lemma HeadedHasOneEntry(g: Cfg, k: nat, c: set<Block>, h: Block)
    requires g.Valid() && g.preds[ENTRY] == [] && forall b: Block :: b < g.Size() ==> g.Reachable(b)
    requires IsScc(g, After(g, k), c) && IsLoop(g, c) && h in c && DominatesAll(g, h, c)
    ensures Candidates(g, c) == {h}
  {
    hide IsLoop, Reach, Candidates;
    NoEntryIn(g, After(g, k), c);
    assert h < g.Size() && g.Reachable(h);
    var p :| g.PathTo(p, h);
    var n := EntersSomewhere(g, c, p, h);
    forall n' | n' in Candidates(g, c)
      ensures n' == h
    {
      OnlyHeaderEntered(g, k, c, h, n');
    }
    OnlyHeaderEntered(g, k, c, h, n);
  }

  /** On a reducible graph every component with a cycle that peeling meets is recorded. */
  lemma ReducibleIsRecorded(g: Cfg)
    requires g.Valid() && g.preds[ENTRY] == [] && forall b: Block :: b < g.Size() ==> g.Reachable(b)
    requires Reducible(g)
    ensures AllRecorded(g)
  {
    hide IsLoop, Reach, Candidates;
    forall k: nat, c | IsScc(g, After(g, k), c) && IsLoop(g, c)
      ensures OneEntry(g, c)
    {
      forall x, y | x in c && y in c
        ensures Reach(g, c, x, y)
      {
        SccInside(g, After(g, k), c, x, y);
      }
      assert Connected(g, c);
      assert Headed(g, c);
      var h :| h in c && DominatesAll(g, h, c);
      HeadedHasOneEntry(g, k, c, h);
    }
  }

  /** A connected set with a cycle in what is left lies in one component, and either holds its base or stays. */
  lemma {:induction false} ConnectedHeaded(g: Cfg, k: nat, c: set<Block>)
    requires g.Valid() && g.preds[ENTRY] == [] && AllRecorded(g)
    requires c <= After(g, k) && IsLoop(g, c) && Connected(g, c)
    ensures Headed(g, c)
    decreases After(g, k)
  {
    hide Reach, Candidates;
    var nodes := After(g, k);
    var x :| x in c;
    var d := SccOf(g, nodes, x);
    SccOfIsScc(g, nodes, x);
    forall y | y in c
      ensures y in d
    {
      ReachMono(g, c, nodes, x, y);
      ReachMono(g, c, nodes, y, x);
    }
    LoopAround(g, c, d);
    assert OneEntry(g, d);
    var base :| Candidates(g, d) == {base};
    assert LoopIn(g, nodes, d, base);
    if base in c {
      forall y | y in c
        ensures g.Dominates(base, y)
      {
        BaseDominates(g, nodes, d, base, y);
      }
      assert DominatesAll(g, base, c);
    } else {
      forall y | y in c
        ensures y in Rest(g, nodes)
      {
        SccOfIsScc(g, nodes, y);
        SccsDisjoint(g, nodes, d, SccOf(g, nodes, y), y);
        assert LoopIn(g, nodes, SccOf(g, nodes, y), base) && y != base;
      }
      RestSmaller(g, nodes);
      ConnectedHeaded(g, k + 1, c);
    }
  }

  lemma LoopAround(g: Cfg, c: set<Block>, d: set<Block>)
    requires IsLoop(g, c) && c <= d
    ensures IsLoop(g, d)
  {
    SubsetSize(c, d);
  }

  /** A graph is reducible exactly if peeling records every component with a cycle that it meets. */
  lemma ReducibleIff(g: Cfg)
    requires g.Valid() && g.preds[ENTRY] == [] && forall b: Block :: b < g.Size() ==> g.Reachable(b)
    ensures Reducible(g) <==> AllRecorded(g)
  {
    hide Connected, IsLoop, Headed;
    if Reducible(g) {
      ReducibleIsRecorded(g);
    }
    if AllRecorded(g) {
      forall c | c <= Below(g.Size()) && IsLoop(g, c) && Connected(g, c)
        ensures Headed(g, c)
      {
        ConnectedHeaded(g, 0, c);
      }
    }
  }

  /** On a reducible graph, every edge back to a dominator gives a loop with that base around its natural loop. */
  lemma NaturalLoopFound(g: Cfg, a: Block, h: Block) returns (c: set<Block>)
    requires BackEdge(g, a, h) && Reducible(g) && g.preds[ENTRY] == []
    requires forall b: Block :: b < g.Size() ==> g.Reachable(b)
    ensures IsRecorded(g, Below(g.Size()), c, h) && Natural(g, a, h) <= c
  {
    hide Reach, IsLoop, Candidates, AllRecorded;
    ReducibleIsRecorded(g);
    forall x | x in Natural(g, a, h)
      ensures x in Below(g.Size())
    {
      if x != h {
        ReachInside(g, Below(g.Size()) - {h}, x, a);
      }
    }
    c := FoundAfter(g, a, h, 0);
  }

  lemma {:induction false} FoundAfter(g: Cfg, a: Block, h: Block, k: nat) returns (c: set<Block>)
    requires BackEdge(g, a, h) && AllRecorded(g) && g.preds[ENTRY] == []
    requires forall b: Block :: b < g.Size() ==> g.Reachable(b)
    requires Natural(g, a, h) <= After(g, k)
    ensures IsRecorded(g, After(g, k), c, h) && Natural(g, a, h) <= c
    decreases After(g, k)
  {
    hide Reach, IsLoop, Candidates;
    var nodes := After(g, k);
    c := SccOf(g, nodes, h);
    SccOfIsScc(g, nodes, h);
    AroundNatural(g, a, h, nodes);
    assert OneEntry(g, c);
    var b :| Candidates(g, c) == {b};
    assert IsRecorded(g, nodes, c, b);
    LoopWithoutEntry(g, nodes, c, b);
    if b != h {
      EntryOutside(g, a, h, c, b);
      forall x | x in Natural(g, a, h)
        ensures x in Rest(g, nodes)
      {
        SccOfIsScc(g, nodes, x);
        SccsDisjoint(g, nodes, c, SccOf(g, nodes, x), x);
        assert LoopIn(g, nodes, SccOf(g, nodes, x), b) && x != b;
      }
      RestSmaller(g, nodes);
      c := FoundAfter(g, a, h, k + 1);
    }
  }

  // ----- an example -----

  /** A loop around two branches: block 1 is its header, 2 and 3 are the branches, and 4 leads back. */
  function BranchingLoop(): Cfg {
    Cfg([[1], [2, 3], [4], [4], [1, 5], []], [[], [0, 4], [1], [1], [2, 3], [4]])
  }

  lemma {:induction false} ThroughOne(p: seq<Block>, b: Block)
    requires BranchingLoop().PathTo(p, b) && b != ENTRY
    ensures 1 in p
    decreases |p|
  {
    if b != 1 {
      ThroughOne(p[..|p| - 1], p[|p| - 2]);
    }
  }

  lemma BranchingLoopReducible()
    ensures BranchingLoop().Valid() && Reducible(BranchingLoop())
  {
    hide IsLoop, Connected;
    forall c | c <= Below(BranchingLoop().Size()) && IsLoop(BranchingLoop(), c) && Connected(BranchingLoop(), c)
      ensures Headed(BranchingLoop(), c)
    {
      HeadedByOne(c);
    }
  }

  lemma HeadedByOne(c: set<Block>)
    requires IsLoop(BranchingLoop(), c) && Connected(BranchingLoop(), c)
    ensures Headed(BranchingLoop(), c)
  {
    hide IsLoop, Connected, Cfg.PathTo;
    var g := BranchingLoop();
    var x :| x in c by {
      NotEmpty(g, c);
    }
    ReachesOne(c, x);
    forall y | y in c
      ensures g.Dominates(1, y)
    {
      PredIn(g, c, y);
      forall p | g.PathTo(p, y)
        ensures 1 in p
      {
        ThroughOne(p, y);
      }
    }
    assert DominatesAll(g, 1, c);
  }

  lemma NotEmpty(g: Cfg, c: set<Block>)
    requires IsLoop(g, c)
    ensures c != {}
  {
  }

  /** Going on inside a cycle leads to block 1. */
  lemma {:induction false} ReachesOne(c: set<Block>, x: Block)
    requires IsLoop(BranchingLoop(), c) && Connected(BranchingLoop(), c) && x in c
    ensures 1 in c
    decreases 6 - x
  {
    hide IsLoop, Connected;
    var y := SuccIn(BranchingLoop(), c, x);
    if y != 1 {
      ReachesOne(c, y);
    }
  }

  lemma SuccIn(g: Cfg, c: set<Block>, x: Block) returns (y: Block)
    requires IsLoop(g, c) && Connected(g, c) && x in c
    ensures y in c && g.Edge(x, y)
  {
    if z :| z in c && z != x {
      assert Reach(g, c, x, z);
      var p :| WalkBetween(g, c, p, x, z);
      y := p[1];
    } else {
      SubsetSize(c, {x});
      y :| y in c && g.Edge(y, y);
    }
  }

  lemma PredIn(g: Cfg, c: set<Block>, x: Block)
    requires IsLoop(g, c) && Connected(g, c) && x in c
    ensures exists y :: y in c && g.Edge(y, x)
  {
    if z :| z in c && z != x {
      assert Reach(g, c, z, x);
      var p :| WalkBetween(g, c, p, z, x);
      assert p[|p| - 2] in c && g.Edge(p[|p| - 2], x);
    } else {
      SubsetSize(c, {x});
      var y :| y in c && g.Edge(y, y);
    }
  }
}
