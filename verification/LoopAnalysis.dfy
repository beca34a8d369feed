/** Tarjan's search for strongly connected components, and the loops found by peeling off their headers. */
module LoopAnalysis {
  import opened Basics
  import opened Graphs
  import opened Components
  import opened LoopForest

  class LoopInfo {
    const g: Cfg
    /** The search: the index and low link of each visited block, and the stack of those not yet in a component. */
    var index: map<Block, int>
    var lowLink: map<Block, int>
    var indexCount: int
    var stack: seq<Block>
    var sccs: set<set<Block>>
    ghost var gray: set<Block>
    /** The loops found. */
    var loopSet: set<set<Block>>
    var loop2base: map<set<Block>, Block>
    var base2loop: map<Block, set<Block>>
    /** The base of the innermost loop around each block. */
    var bb2base: map<Block, Block>

    constructor (g: Cfg)
      ensures this.g == g
      ensures loopSet == {} && loop2base == map[] && base2loop == map[] && bb2base == map[]
    {
      this.g := g;
      loopSet, loop2base, base2loop, bb2base := {}, map[], map[], map[];
      index, lowLink, indexCount, stack, sccs, gray := map[], map[], 0, [], {}, {};
    }

    ghost function Now(): Search
      reads this
    {
      Search(index, indexCount, stack, sccs, gray)
    }

    /** Tarjan's algorithm: the components of the graph that `nodes` induce. */
    method FindScc(nodes: set<Block>)
      requires g.Valid() && forall x :: x in nodes ==> x < g.Size()
      modifies this`index, this`lowLink, this`indexCount, this`stack, this`sccs, this`gray
      ensures forall c :: c in sccs <==> IsScc(g, nodes, c)
    {
      hide Sound, IsScc, Reach, Extends;
      index, lowLink, indexCount, stack, sccs, gray := map[], map[], 0, [], {}, {};
      StartSound(g, nodes);
      var todo := nodes;
      while todo != {}
        invariant todo <= nodes && Sound(g, nodes, Now()) && gray == {}
        invariant forall x :: x in nodes - todo ==> x in index
        decreases todo
      {
        var node :| node in todo;
        if node !in index {
          ghost var s := Now();
          Traverse(nodes, node);
          ExtendsVisits(s, Now());
        }
        todo := todo - {node};
      }
      AllClosed(g, nodes, Now());
      forall x | x in nodes
        ensures exists c :: c in sccs && x in c
      {
        assert x in Now().index;
      }
      Partition(g, nodes, sccs);
    }

    /** Visits what can be reached from `node` over unvisited blocks, and closes the components found. */
    method Traverse(nodes: set<Block>, node: Block)
      requires g.Valid() && (forall x :: x in nodes ==> x < g.Size()) && node in nodes && node !in index
      requires Sound(g, nodes, Now()) && forall z :: z in gray ==> Reach(g, nodes, z, node)
      modifies this`index, this`lowLink, this`indexCount, this`stack, this`sccs, this`gray
      ensures Sound(g, nodes, Now()) && Extends(old(Now()), Now())
      ensures node in index && index[node] == old(indexCount)
      ensures lowLink.Keys >= old(lowLink).Keys && node in lowLink
      ensures forall x :: x in old(index) && x in old(lowLink) ==> lowLink[x] == old(lowLink)[x]
      ensures Witnessed(g, nodes, Now(), node, lowLink[node]) && NoLowerEdge(g, old(Now()), Now(), lowLink[node])
      decreases nodes - index.Keys
    {
      hide Sound, Reach, Scanning, Extends, Witnessed, NoLowerEdge;
      ghost var s := Now();
      ScanStart(g, nodes, s, node);
      index, lowLink := index[node := indexCount], lowLink[node := indexCount];
      indexCount := indexCount + 1;
      stack := stack + [node];
      gray := gray + {node};
      var todo := set y | y in g.succs[node];
      ghost var done: set<Block> := {};
      while todo != {}
        invariant done + todo == set y | y in g.succs[node]
        invariant node in lowLink && lowLink.Keys >= old(lowLink).Keys
        invariant forall x :: x in old(index) && x in old(lowLink) ==> lowLink[x] == old(lowLink)[x]
        invariant Scanning(g, nodes, s, Now(), node, lowLink[node], done)
        decreases todo
      {
        var succ :| succ in todo;
        assert g.Edge(node, succ);
        ghost var t := Now();
        ScanMeans(g, nodes, s, t, node, lowLink[node], done);
        if succ in nodes {
          if succ !in index {
            ScanReach(g, nodes, s, t, node, lowLink[node], done, succ);
            Traverse(nodes, succ);
            ScanTree(g, nodes, s, t, Now(), node, lowLink[node], done, succ, lowLink[succ]);
            lowLink := lowLink[node := if lowLink[succ] < lowLink[node] then lowLink[succ] else lowLink[node]];
          } else if succ in stack {
            ScanBack(g, nodes, s, t, node, lowLink[node], done, succ);
            lowLink := lowLink[node := if index[succ] < lowLink[node] then index[succ] else lowLink[node]];
          } else {
            ScanSkip(g, nodes, s, t, node, lowLink[node], done, succ);
          }
        } else {
          ScanSkip(g, nodes, s, t, node, lowLink[node], done, succ);
        }
        todo, done := todo - {succ}, done + {succ};
      }
      ghost var t := Now();
      ScanMeans(g, nodes, s, t, node, lowLink[node], done);
      ScanEnd(g, nodes, s, t, node, lowLink[node], done);
      StackSplit(g, nodes, s, t, node, lowLink[node]);
      if index[node] == lowLink[node] {
        CloseRootSound(g, nodes, s, t, node, lowLink[node]);
        var group := PopGroup(node, s);
        sccs := sccs + {group};
      } else {
        CloseInnerSound(g, nodes, s, t, node, lowLink[node]);
      }
      gray := gray - {node};
      LeftLow(g, nodes, s, t, Now(), node, lowLink[node]);
    }

    /** The only block that control enters `scc` by, if there is only one. */
    method FindLoopHeader(scc: set<Block>) returns (header: Option<Block>)
      requires g.Valid() && forall x :: x in scc ==> x < g.Size()
      ensures header == if exists n :: Candidates(g, scc) == {n} then Some(TheOne(Candidates(g, scc))) else None
    {
      var candidates: set<Block> := {};
      var todo := scc;
      while todo != {}
        invariant todo <= scc
        invariant candidates == set n | n in scc - todo && EnteredFromOutside(g, scc, n)
        decreases todo
      {
        var node :| node in todo;
        var any := false;
        for i := 0 to |g.preds[node]|
          invariant any <==> exists p :: p in g.preds[node][..i] && (p == ENTRY || p !in scc)
        {
          assert g.preds[node][..i + 1] == g.preds[node][..i] + [g.preds[node][i]];
          if g.preds[node][i] == ENTRY || g.preds[node][i] !in scc {
            any := true;
          }
        }
        assert g.preds[node][..|g.preds[node]|] == g.preds[node];
        if any {
          candidates := candidates + {node};
        }
        todo := todo - {node};
      }
      assert candidates == Candidates(g, scc);
      if |candidates| != 1 {
        return None;
      }
      var n :| n in candidates;
      OnlyMember(candidates, n);
      return Some(n);
    }

    /** The tables of loops, and the blocks still to be searched. */
    ghost predicate Peeling(remaining: set<Block>)
      reads this
    {
      && loopSet == loop2base.Keys && Linkage(loop2base, base2loop) && Innermost(loop2base, base2loop, bb2base)
      && Recorded(g, Below(g.Size()), remaining, loop2base) && Peeled(g, remaining, loop2base)
    }

    /** Finds the loops, outermost first. */
    method Run()
      requires g.Valid()
      requires loopSet == {} && loop2base == map[] && base2loop == map[] && bb2base == map[]
      modifies this
      ensures loopSet == loop2base.Keys
      ensures forall c, base :: (c in loop2base && loop2base[c] == base) <==> IsRecorded(g, Below(g.Size()), c, base)
      ensures Linkage(loop2base, base2loop) && Innermost(loop2base, base2loop, bb2base)
    {
      hide IsScc, IsRecorded, Linkage, Innermost, Peeled, Recorded, Reach;
      var remaining: set<Block> := {};
      for b := 0 to |g.succs|
        invariant remaining == Below(b)
        invariant loopSet == {} && loop2base == map[] && base2loop == map[] && bb2base == map[]
      {
        remaining := remaining + {b};
      }
      NothingRecorded(g, Below(g.Size()));
      while true
        invariant remaining <= Below(g.Size())
        invariant Peeling(remaining)
        decreases remaining
      {
        FindScc(remaining);
        if sccs == {} {
          break;
        }
        remaining := RecordRound(remaining);
      }
      NothingLeft(g, remaining);
      RecordedAll(g, Below(g.Size()), remaining, loop2base);
    }

    /** One round: records the components that are loops with one entry, and removes their headers and the rest. */
    method RecordRound(remaining: set<Block>) returns (remaining': set<Block>)
      requires g.Valid() && remaining <= Below(g.Size()) && sccs != {}
      requires forall c :: c in sccs <==> IsScc(g, remaining, c)
      requires Peeling(remaining)
      modifies this`loopSet, this`loop2base, this`base2loop, this`bb2base
      ensures remaining' < remaining
      ensures Peeling(remaining')
    {
      hide IsScc, IsRecorded, Linkage, Innermost, Peeled, Recorded, Reach, IsLoop, Removed, LoopIn, InRound;
      ghost var before := loop2base;
      var toRemove: set<Block> := {};
      var todo := sccs;
      assert sccs - todo == {};
      InRoundStart(g, remaining, loop2base, base2loop);
      while todo != {}
        invariant todo <= sccs && Linkage(loop2base, base2loop) && Innermost(loop2base, base2loop, bb2base)
        invariant loopSet == loop2base.Keys
        invariant InRound(g, remaining, before, sccs - todo, loop2base)
        invariant forall x :: x in toRemove <==> exists c :: c in sccs - todo && Removed(g, remaining, c, x)
        decreases todo
      {
        var scc :| scc in todo;
        var header := None;
        SccInBlocks(remaining, scc);
        if IsLoop(g, scc) {
          header := FindLoopHeader(scc);
        }
        if header == None {
          InRoundSkip(g, remaining, before, sccs - todo, loop2base, scc);
          toRemove := toRemove + scc;
        } else {
          InRoundRecord(g, remaining, before, sccs - todo, loop2base, scc, header.value);
          RecordLoop(scc, header.value);
          toRemove := toRemove + {header.value};
        }
        assert sccs - (todo - {scc}) == (sccs - todo) + {scc};
        todo := todo - {scc};
      }
      remaining' := remaining - toRemove;
      assert sccs - todo == sccs;
      RestIsNotRemoved(g, remaining, sccs, toRemove);
      SccsCover(remaining);
      RestSmaller(g, remaining);
      RoundDone(g, remaining, before, sccs, loop2base);
    }

    lemma SccInBlocks(remaining: set<Block>, c: set<Block>)
      requires remaining <= Below(g.Size()) && IsScc(g, remaining, c)
      ensures forall x :: x in c ==> x < g.Size()
    {
    }

    lemma SccsCover(remaining: set<Block>)
      requires sccs != {} && forall c :: c in sccs ==> IsScc(g, remaining, c)
      ensures remaining != {}
    {
      var c :| c in sccs;
    }

    method RecordLoop(scc: set<Block>, header: Block)
      requires forall c :: c in loop2base ==> loop2base[c] != header && (scc <= c || scc !! c) && c != scc
      requires header in scc && Linkage(loop2base, base2loop) && Innermost(loop2base, base2loop, bb2base)
      modifies this`loopSet, this`loop2base, this`base2loop, this`bb2base
      ensures loopSet == old(loopSet) + {scc} && loop2base == old(loop2base)[scc := header]
      ensures Linkage(loop2base, base2loop) && Innermost(loop2base, base2loop, bb2base)
    {
      var todo := scc;
      while todo != {}
        invariant todo <= scc
        invariant loopSet == old(loopSet) && loop2base == old(loop2base) && base2loop == old(base2loop)
        invariant bb2base == old(bb2base) + map x | x in scc - todo :: header
        decreases todo
      {
        var node :| node in todo;
        bb2base := bb2base[node := header];
        todo := todo - {node};
      }
      assert scc - todo == scc;
      loopSet := loopSet + {scc};
      loop2base := loop2base[scc := header];
      base2loop := base2loop[header := scc];
      LinkOne(old(loop2base), old(base2loop), scc, header);
      InnerOne(old(loop2base), old(base2loop), old(bb2base), scc, header);
    }

    /** The innermost loop around a block. */
    method GetInnermost(bb: Block) returns (loop: Option<set<Block>>)
      requires Linkage(loop2base, base2loop) && Innermost(loop2base, base2loop, bb2base)
      ensures loop.None? ==> forall d :: d in loop2base ==> bb !in d
      ensures loop.Some? ==> loop.value in loop2base && bb in loop.value
      ensures loop.Some? ==> forall d :: d in loop2base && bb in d ==> loop.value <= d
    {
      assert Inner(loop2base, base2loop, bb2base, bb);
      if bb !in bb2base {
        return None;
      }
      return Some(base2loop[bb2base[bb]]);
    }

    /** Pops the blocks from `node` up. */
    method PopGroup(node: Block, ghost s: Search) returns (group: set<Block>)
      requires |s.stack| < |stack| && s.stack == stack[..|s.stack|] && stack[|s.stack|] == node
      requires forall i :: |s.stack| < i < |stack| ==> stack[i] != node
      modifies this`stack
      ensures stack == s.stack && group == Group(s, old(Now()))
    {
      group := {};
      ghost var all := stack;
      while stack != []
        invariant s.stack <= stack <= all && |s.stack| < |stack|
        invariant group == set y | y in all[|stack|..]
        decreases |stack|
      {
        var member := stack[|stack| - 1];
        assert all[|stack| - 1..] == [member] + all[|stack|..];
        stack := stack[..|stack| - 1];
        group := group + {member};
        if member == node {
          break;
        }
      }
    }
  }

  lemma StartSound(g: Cfg, nodes: set<Block>)
    ensures Sound(g, nodes, Search(map[], 0, [], {}, {}))
  {
  }

  lemma ExtendsVisits(s: Search, t: Search)
    requires Extends(s, t)
    ensures s.index.Keys <= t.index.Keys && t.gray == s.gray
  {
  }

  lemma ScanMeans(g: Cfg, nodes: set<Block>, s: Search, t: Search, x: Block, low: int, done: set<Block>)
    requires Scanning(g, nodes, s, t, x, low, done)
    ensures Sound(g, nodes, t) && x in t.index && x !in s.index && t.index[x] == s.count && low <= t.index[x]
    ensures s.index.Keys <= t.index.Keys
  {
    hide Sound;
  }

  lemma LeftLow(g: Cfg, nodes: set<Block>, s: Search, t: Search, u: Search, x: Block, low: int)
    requires Leaving(g, nodes, s, t, x, low) && u.index == t.index
    requires if low == t.index[x] then u.stack == s.stack else u.stack == t.stack
    ensures Witnessed(g, nodes, u, x, low) && |s.stack| <= |u.stack| && NoLowerEdge(g, s, u, low)
  {
    hide Sound, Reach;
  }

  /** The components found are all of them. */
  lemma Partition(g: Cfg, nodes: set<Block>, sccs: set<set<Block>>)
    requires forall c :: c in sccs ==> IsScc(g, nodes, c)
    requires forall x :: x in nodes ==> exists c :: c in sccs && x in c
    ensures forall c :: c in sccs <==> IsScc(g, nodes, c)
  {
    forall c | IsScc(g, nodes, c)
      ensures c in sccs
    {
      var x :| x in c;
      var d :| d in sccs && x in d;
      SccsDisjoint(g, nodes, c, d, x);
    }
  }

  function TheOne(s: set<Block>): (n: Block)
    requires exists n :: s == {n}
    ensures s == {n}
  {
    var n :| s == {n};
    n
  }

  lemma OnlyMember(s: set<Block>, n: Block)
    requires n in s
    ensures |s| == 1 <==> s == {n}
    ensures (exists m :: s == {m}) ==> |s| == 1
  {
    if |s| == 1 {
      assert |s - {n}| == 0;
    }
  }

  // ----- the tables -----

  /** The loops recorded so far are those that the rounds before the present one find. */
  ghost predicate Recorded(g: Cfg, all: set<Block>, remaining: set<Block>, loop2base: map<set<Block>, Block>) {
    forall c, base :: IsRecorded(g, all, c, base) <==>
      (c in loop2base && loop2base[c] == base) || IsRecorded(g, remaining, c, base)
  }

  /** The tables of loops and of bases agree. */
  ghost predicate Linkage(loop2base: map<set<Block>, Block>, base2loop: map<Block, set<Block>>) {
    && (forall c :: c in loop2base ==> loop2base[c] in c && loop2base[c] in base2loop && base2loop[loop2base[c]] == c)
    && (forall b :: b in base2loop ==> base2loop[b] in loop2base && loop2base[base2loop[b]] == b)
  }

  /** The table of innermost loops: for each block, the smallest loop recorded around it. */
  ghost predicate Innermost(loop2base: map<set<Block>, Block>, base2loop: map<Block, set<Block>>,
                            bb2base: map<Block, Block>) {
    forall x {:trigger Inner(loop2base, base2loop, bb2base, x)} :: Inner(loop2base, base2loop, bb2base, x)
  }

  ghost predicate Inner(loop2base: map<set<Block>, Block>, base2loop: map<Block, set<Block>>,
                        bb2base: map<Block, Block>,
                        x: Block) {
    if x in bb2base then
      bb2base[x] in base2loop && x in base2loop[bb2base[x]] &&
      forall d :: d in loop2base && x in d ==> base2loop[bb2base[x]] <= d
    else forall d :: d in loop2base ==> x !in d
  }

  /** No component of what remains straddles a recorded loop, and the bases of the recorded loops are gone. */
  ghost predicate Peeled(g: Cfg, remaining: set<Block>, loop2base: map<set<Block>, Block>) {
    forall d :: d in loop2base ==> loop2base[d] !in remaining && Splits(g, remaining, d)
  }

  lemma NothingRecorded(g: Cfg, all: set<Block>)
    ensures Recorded(g, all, all, map[]) && Linkage(map[], map[]) && Innermost(map[], map[], map[])
    ensures Peeled(g, all, map[])
  {
    hide IsRecorded;
  }

  lemma RecordedAll(g: Cfg, all: set<Block>, remaining: set<Block>, loop2base: map<set<Block>, Block>)
    requires Recorded(g, all, remaining, loop2base) && forall c, base :: !IsRecorded(g, remaining, c, base)
    ensures forall c, base :: (c in loop2base && loop2base[c] == base) <==> IsRecorded(g, all, c, base)
  {
    hide IsRecorded;
  }

  lemma LinkOne(loop2base: map<set<Block>, Block>, base2loop: map<Block, set<Block>>, c: set<Block>, base: Block)
    requires Linkage(loop2base, base2loop) && base in c && forall d :: d in loop2base ==> loop2base[d] != base && d != c
    ensures Linkage(loop2base[c := base], base2loop[base := c])
  {
  }

  /** Recording a loop that is nowhere outside an older one around its blocks. */
  lemma InnerOne(loop2base: map<set<Block>, Block>, base2loop: map<Block, set<Block>>, bb2base: map<Block, Block>,
                 c: set<Block>, base: Block)
    requires Linkage(loop2base, base2loop) && Innermost(loop2base, base2loop, bb2base)
    requires forall d :: d in loop2base ==> loop2base[d] != base && (c <= d || c !! d)
    ensures Innermost(loop2base[c := base], base2loop[base := c], bb2base + map x | x in c :: base)
  {
    hide Inner;
    var l, b, i := loop2base[c := base], base2loop[base := c], bb2base + map x | x in c :: base;
    forall x {:trigger Inner(l, b, i, x)}
      ensures Inner(l, b, i, x)
    {
      assert Inner(loop2base, base2loop, bb2base, x);
      InnerAt(loop2base, base2loop, bb2base, c, base, x);
    }
  }

  lemma InnerAt(loop2base: map<set<Block>, Block>, base2loop: map<Block, set<Block>>, bb2base: map<Block, Block>,
                c: set<Block>, base: Block, x: Block)
    requires Linkage(loop2base, base2loop) && Inner(loop2base, base2loop, bb2base, x)
    requires forall d :: d in loop2base ==> loop2base[d] != base && (c <= d || c !! d)
    ensures Inner(loop2base[c := base], base2loop[base := c], bb2base + map x | x in c :: base, x)
  {
  }

  // ----- one round -----

  ghost predicate HasBase(t: map<set<Block>, Block>, c: set<Block>, base: Block) {
    c in t && t[c] == base
  }

  /** What the table of loops has gained so far in a round: the loops among the components `done`. */
  ghost predicate InRound(g: Cfg, remaining: set<Block>, before: map<set<Block>, Block>, done: set<set<Block>>,
                          now: map<set<Block>, Block>) {
    && (forall c, base {:trigger LoopIn(g, remaining, c, base)} {:trigger HasBase(now, c, base)} ::
          HasBase(now, c, base) <==> HasBase(before, c, base) || (c in done && LoopIn(g, remaining, c, base)))
    && (forall d :: d in before ==> before[d] in d && before[d] !in remaining && Splits(g, remaining, d))
  }

  lemma RecordedUnfold(g: Cfg, nodes: set<Block>, c: set<Block>, base: Block)
    requires nodes != {}
    ensures IsRecorded(g, nodes, c, base) <==> LoopIn(g, nodes, c, base) || IsRecorded(g, Rest(g, nodes), c, base)
    ensures LoopIn(g, nodes, c, base) ==> IsScc(g, nodes, c)
  {
    hide Rest, IsScc;
    RestSmaller(g, nodes);
  }

  lemma InRoundSkip(g: Cfg, remaining: set<Block>, before: map<set<Block>, Block>, done: set<set<Block>>,
                    now: map<set<Block>, Block>, c: set<Block>)
    requires InRound(g, remaining, before, done, now)
    requires !IsLoop(g, c) || !exists n :: Candidates(g, c) == {n}
    ensures InRound(g, remaining, before, done + {c}, now)
    ensures forall x :: Removed(g, remaining, c, x) <==> x in c
  {
    hide Splits, IsScc, Candidates, IsLoop;
    assert forall base :: !LoopIn(g, remaining, c, base);
  }

  lemma InRoundRecord(g: Cfg, remaining: set<Block>, before: map<set<Block>, Block>, done: set<set<Block>>,
                      now: map<set<Block>, Block>, c: set<Block>, base: Block)
    requires InRound(g, remaining, before, done, now) && c !in done
    requires (forall d :: d in done ==> IsScc(g, remaining, d))
    requires IsScc(g, remaining, c) && IsLoop(g, c) && Candidates(g, c) == {base}
    ensures InRound(g, remaining, before, done + {c}, now[c := base])
    ensures forall x :: Removed(g, remaining, c, x) <==> x == base
    ensures base in c && forall d :: d in now ==> now[d] != base && d != c && (c <= d || c !! d)
  {
    hide Splits, IsScc, Candidates, IsLoop;
    LoopHasBase(g, remaining, c, base);
    forall k | LoopIn(g, remaining, c, k)
      ensures k == base
    {
      assert k in {base};
    }
    assert c !in before;
    forall d: set<Block>, k: Block {:trigger HasBase(now[c := base], d, k)}
      ensures HasBase(now[c := base], d, k) <==>
              HasBase(before, d, k) || (d in done + {c} && LoopIn(g, remaining, d, k))
    {
      assert HasBase(now, d, k) <==> HasBase(before, d, k) || (d in done && LoopIn(g, remaining, d, k));
    }
    forall d | d in now
      ensures now[d] != base && d != c && (c <= d || c !! d)
    {
      assert HasBase(now, d, now[d]);
      if HasBase(before, d, now[d]) {
        InsideOrOutside(g, remaining, d, c);
        assert before[d] in d && before[d] !in remaining;
      } else {
        assert d in done && LoopIn(g, remaining, d, now[d]);
        LoopHasBase(g, remaining, d, now[d]);
        SccsApart(g, remaining, c, d);
      }
    }
  }

  lemma SccsApart(g: Cfg, nodes: set<Block>, c: set<Block>, d: set<Block>)
    requires IsScc(g, nodes, c) && IsScc(g, nodes, d) && c != d
    ensures c !! d
  {
    hide Reach;
    if x :| x in c && x in d {
      SccsDisjoint(g, nodes, c, d, x);
    }
  }

  lemma LoopHasBase(g: Cfg, nodes: set<Block>, c: set<Block>, base: Block)
    requires LoopIn(g, nodes, c, base)
    ensures base in c && c <= nodes && IsScc(g, nodes, c)
  {
    hide Reach, IsLoop;
    assert base in Candidates(g, c);
  }

  lemma RoundPeels(g: Cfg, remaining: set<Block>, before: map<set<Block>, Block>, done: set<set<Block>>,
                   now: map<set<Block>, Block>, d: set<Block>)
    requires InRound(g, remaining, before, done, now) && d in now
    ensures now[d] !in Rest(g, remaining) && Splits(g, Rest(g, remaining), d)
  {
    hide IsScc, Splits, LoopIn, Rest;
    var rest := Rest(g, remaining);
    assert rest <= remaining;
    assert HasBase(now, d, now[d]);
    if HasBase(before, d, now[d]) {
      SplitsFewer(g, remaining, rest, d);
    } else {
      assert LoopIn(g, remaining, d, now[d]);
      BaseGone(g, remaining, d, now[d]);
      LoopHasBase(g, remaining, d, now[d]);
      SccSplits(g, remaining, d);
      SplitsFewer(g, remaining, rest, d);
    }
  }

  lemma InRoundStart(g: Cfg, remaining: set<Block>, loop2base: map<set<Block>, Block>,
                     base2loop: map<Block, set<Block>>)
    requires Linkage(loop2base, base2loop) && Peeled(g, remaining, loop2base)
    ensures InRound(g, remaining, loop2base, {}, loop2base)
  {
    hide IsScc, Splits, LoopIn;
  }

  /** A finished round. */
  lemma RoundDone(g: Cfg, remaining: set<Block>, before: map<set<Block>, Block>, sccs: set<set<Block>>,
                  now: map<set<Block>, Block>)
    requires InRound(g, remaining, before, sccs, now) && remaining != {}
    requires forall c :: c in sccs <==> IsScc(g, remaining, c)
    requires Recorded(g, Below(g.Size()), remaining, before)
    ensures Recorded(g, Below(g.Size()), Rest(g, remaining), now) && Peeled(g, Rest(g, remaining), now)
  {
    hide IsScc, Splits, IsRecorded, LoopIn, Rest;
    forall c, base
      ensures IsRecorded(g, Below(g.Size()), c, base) <==>
              (c in now && now[c] == base) || IsRecorded(g, Rest(g, remaining), c, base)
    {
      RecordedUnfold(g, remaining, c, base);
      assert HasBase(now, c, base) <==> HasBase(before, c, base) || (c in sccs && LoopIn(g, remaining, c, base));
    }
    forall d | d in now
      ensures now[d] !in Rest(g, remaining) && Splits(g, Rest(g, remaining), d)
    {
      RoundPeels(g, remaining, before, sccs, now, d);
    }
  }

  /** The loops of a flow graph, each with its base. */
  method FindLoops(g: Cfg) returns (loops: map<set<Block>, Block>)
    requires g.Valid()
    ensures forall c, base :: (c in loops && loops[c] == base) <==> IsRecorded(g, Below(g.Size()), c, base)
  {
    hide IsRecorded, Linkage, Innermost;
    var info := new LoopInfo(g);
    info.Run();
    loops := info.loop2base;
  }
}
