/** Liveness by iterated backward passes over the blocks, and the live interval of each value. */
module Liverange {
  import opened Graphs
  import opened Lowered
  import opened LiveSets
  import opened LivePositions
  import opened Numbering
  import opened Intervals

  /** Blocks in the order a depth-first search reaches them; every block but the entry has a predecessor earlier in the
      list. */
  ghost predicate Discovered(g: Cfg, order: seq<Block>) {
    && (forall i :: 0 <= i < |order| ==> order[i] < g.Size())
    && (forall i, j :: 0 <= i < j < |order| ==> order[i] != order[j])
    && (|order| > 0 ==> order[0] == ENTRY)
    && (forall i {:trigger ReachedEarlier(g, order, i)} :: 0 < i < |order| ==> ReachedEarlier(g, order, i))
    && (forall i {:trigger order[..i]} :: 0 < i < |order| ==> NextUp(g, order[..i], order[i]))
  }

  /** `b` is the block to go to next: of the last block that has a successor not listed yet, the first such one. */
  ghost predicate NextUp(g: Cfg, order: seq<Block>, b: Block) {
    exists i: nat, s: nat :: i < |order| && order[i] < g.Size() && s < |g.succs[order[i]]| && FirstOpen(g, order, i, s, b)
  }

  ghost predicate FirstOpen(g: Cfg, order: seq<Block>, i: nat, s: nat, b: Block)
    requires i < |order| && order[i] < g.Size() && s < |g.succs[order[i]]|
  {
    && g.succs[order[i]][s] == b && b !in order
    && (forall t :: 0 <= t < s ==> g.succs[order[i]][t] in order)
    && (forall j, y :: i < j < |order| && g.Edge(order[j], y) ==> y in order)
  }

  ghost predicate ReachedEarlier(g: Cfg, order: seq<Block>, i: nat)
    requires i < |order|
  {
    exists j :: 0 <= j < i && g.Edge(order[j], order[i])
  }

  lemma DiscoverMore(g: Cfg, order: seq<Block>, b: Block)
    requires Discovered(g, order) && b < g.Size() && b !in order
    requires if order == [] then b == ENTRY else NextUp(g, order, b)
    ensures Discovered(g, order + [b])
  {
    hide FirstOpen;
    var order' := order + [b];
    forall i | 0 < i < |order'|
      ensures NextUp(g, order'[..i], order'[i])
    {
      assert order'[..i] == order[..i];
      if i == |order| {
        assert order[..i] == order;
      }
    }
    forall i | 0 < i < |order'|
      ensures ReachedEarlier(g, order', i)
    {
      if i < |order| {
        assert ReachedEarlier(g, order, i);
        var j :| 0 <= j < i && g.Edge(order[j], order[i]);
        assert g.Edge(order'[j], order'[i]);
      } else {
        var j: nat, s: nat :|
          j < |order| && order[j] < g.Size() && s < |g.succs[order[j]]| && FirstOpen(g, order, j, s, b);
        OpenIsEdge(g, order, j, s, b);
        assert g.Edge(order'[j], order'[i]);
      }
    }
  }

  lemma OpenIsEdge(g: Cfg, order: seq<Block>, i: nat, s: nat, b: Block)
    requires i < |order| && order[i] < g.Size() && s < |g.succs[order[i]]| && FirstOpen(g, order, i, s, b)
    ensures g.Edge(order[i], b)
  {
  }

  /** The next child of the block at position `i`, when its earlier children and all blocks after it are done. */
  lemma NextChild(g: Cfg, order: seq<Block>, i: nat, s: nat, visited: set<Block>, visited': set<Block>)
    requires Discovered(g, order) && i < |order| && order[i] < g.Size() && s < |g.succs[order[i]]|
    requires (forall x :: x in order <==> x in visited') && (forall x :: x in order[..i] <==> x in visited)
    requires Closed(g, visited' - visited - {order[i]}, visited')
    requires forall j :: 0 <= j < s ==> g.succs[order[i]][j] in visited'
    ensures g.succs[order[i]][s] in visited' || NextUp(g, order, g.succs[order[i]][s])
  {
    forall j, y | i < j < |order| && g.Edge(order[j], y)
      ensures y in order
    {
      assert order[j] !in order[..i];
      assert order[j] in visited' - visited - {order[i]};
    }
    if g.succs[order[i]][s] !in visited' {
      assert FirstOpen(g, order, i, s, g.succs[order[i]][s]);
    }
  }

  ghost predicate Closed(g: Cfg, xs: set<Block>, visited: set<Block>) {
    forall x, y :: x in xs && g.Edge(x, y) ==> y in visited
  }

  lemma {:induction false} ReachesAll(g: Cfg, visited: set<Block>, p: seq<Block>, b: Block)
    requires g.PathTo(p, b) && ENTRY in visited && Closed(g, visited, visited)
    ensures b in visited
    decreases |p|
  {
    if |p| > 1 {
      ReachesAll(g, visited, p[..|p| - 1], p[|p| - 2]);
    }
  }

  class LiveRangeAnalyzer {
    const f: Fun
    var bbDfsOrder: seq<Block>
    var ids: Ids
    var inSet: Table
    var outSet: Table
    var intervalMap: IntervalMap
    /** In the order of StartsBefore. */
    var liveIntervals: seq<LiveInterval>
    /** What each value is, as the allocator needs to know it. */
    const values: Val -> RegValue
    /** Reads the numbers back. */
    ghost var owner: map<int, Place>

    constructor (f: Fun, values: Val -> RegValue)
      ensures this.f == f && this.values == values
    {
      this.f, this.values := f, values;
      bbDfsOrder, ids, inSet, outSet, owner := [], Ids(map[], map[]), map[], map[], map[];
      intervalMap, liveIntervals := map[], [];
    }

    /** Visits everything reachable from `bb` over unvisited blocks, each block before its children. */
    method Traverse(bb: Block, visited: set<Block>) returns (visited': set<Block>)
      requires f.Valid() && bb < f.g.Size() && Discovered(f.g, bbDfsOrder) && visited <= Below(f.g.Size())
      requires forall x :: x in bbDfsOrder <==> x in visited
      requires bb in visited || (if bbDfsOrder == [] then bb == ENTRY else NextUp(f.g, bbDfsOrder, bb))
      modifies this`bbDfsOrder
      ensures Discovered(f.g, bbDfsOrder) && visited + {bb} <= visited' <= Below(f.g.Size())
      ensures forall x :: x in bbDfsOrder <==> x in visited'
      ensures old(bbDfsOrder) <= bbDfsOrder
      ensures Closed(f.g, visited' - visited, visited')
      decreases Below(f.g.Size()) - visited
    {
      hide Discovered, NextUp;
      if bb in visited {
        return visited;
      }
      DiscoverMore(f.g, bbDfsOrder, bb);
      visited' := visited + {bb};
      ghost var before := bbDfsOrder;
      bbDfsOrder := bbDfsOrder + [bb];
      for i := 0 to |f.g.succs[bb]|
        invariant Discovered(f.g, bbDfsOrder) && visited + {bb} <= visited' <= Below(f.g.Size())
        invariant forall x :: x in bbDfsOrder <==> x in visited'
        invariant before + [bb] <= bbDfsOrder && Closed(f.g, visited' - visited - {bb}, visited')
        invariant forall j :: 0 <= j < i ==> f.g.succs[bb][j] in visited'
      {
        var succ := f.g.succs[bb][i];
        assert f.g.Edge(bb, succ) && bbDfsOrder[|before|] == bb;
        assert bbDfsOrder[..|before|] == before;
        NextChild(f.g, bbDfsOrder, |before|, i, visited, visited');
        visited' := Traverse(succ, visited');
      }
    }

    method GetDfsOrder()
      requires f.Valid()
      modifies this`bbDfsOrder
      ensures Discovered(f.g, bbDfsOrder) && forall b: Block :: b in bbDfsOrder <==> b < f.g.Size()
    {
      bbDfsOrder := [];
      var visited := Traverse(ENTRY, {});
      forall b: Block | b < f.g.Size()
        ensures b in visited
      {
        assert f.g.Reachable(b);
        var p :| f.g.PathTo(p, b);
        ReachesAll(f.g, visited, p, b);
      }
    }

    /** Numbers every instruction and copy, from 1 on without gaps: block after block in discovery order, in each block
        the body, the copies in their order, and then the terminator. */
    method MakeId()
      requires f.Valid() && CopiesDistinct(f) && Discovered(f.g, bbDfsOrder)
      requires forall b: Block :: b in bbDfsOrder <==> b < f.g.Size()
      modifies this`ids, this`owner
      ensures Numbered(f, ids, owner) && InExecutionOrder(f, ids, bbDfsOrder)
    {
      hide Discovered, CopiesDistinct, BlockNumbered, Tidy, RunUpTo, RunsUpTo;
      ids, owner := Ids(map[], map[]), map[];
      var nextId := 1; // 0 is for the function's arguments
      NoRuns(f, ids, bbDfsOrder);
      for i := 0 to |bbDfsOrder|
        invariant 0 < nextId && NumberedBelow(owner, nextId)
        invariant forall j :: 0 <= j < i ==> BlockFullyNumbered(f, ids, owner, bbDfsOrder[j])
        invariant nextId == FirstNumber(f, bbDfsOrder, i) && RunsUpTo(f, ids, bbDfsOrder, i)
      {
        var bb := bbDfsOrder[i];
        NotYet(f.g, bbDfsOrder, i);
        NothingNumbered(f, ids, owner, bb);
        var blk := f.blocks[bb];
        ghost var first := nextId;
        RunStarts(f, ids, bb, first);
        for k := 0 to |blk.body|
          invariant 0 < nextId && NumberedBelow(owner, nextId)
          invariant forall j :: 0 <= j < i ==> BlockFullyNumbered(f, ids, owner, bbDfsOrder[j])
          invariant BlockNumbered(f, ids, owner, bb, k, 0)
          invariant nextId == first + k && RunsUpTo(f, ids, bbDfsOrder, i) && RunUpTo(f, ids, bb, first, k, 0)
        {
          NumberInstr(f, ids, owner, nextId, bb, k, 0, bbDfsOrder[..i]);
          RunInstr(f, ids, bbDfsOrder, i, k, 0, nextId);
          ids := ids.(instr := ids.instr[(bb, k) := nextId]);
          owner := owner[nextId := InstrAt(bb, k)];
          nextId := nextId + 1;
        }
        for j := 0 to |blk.copies|
          invariant 0 < nextId && NumberedBelow(owner, nextId)
          invariant forall l :: 0 <= l < i ==> BlockFullyNumbered(f, ids, owner, bbDfsOrder[l])
          invariant BlockNumbered(f, ids, owner, bb, |blk.body|, j)
          invariant nextId == first + |blk.body| + j && RunsUpTo(f, ids, bbDfsOrder, i)
          invariant RunUpTo(f, ids, bb, first, |blk.body|, j)
        {
          NumberCopy(f, ids, owner, nextId, bb, |blk.body|, j, bbDfsOrder[..i]);
          RunCopy(f, ids, bbDfsOrder, i, |blk.body|, j, nextId);
          ids := ids.(copy := ids.copy[blk.copies[j] := nextId]);
          owner := owner[nextId := CopyAt(bb, j)];
          nextId := nextId + 1;
        }
        NumberInstr(f, ids, owner, nextId, bb, |blk.body|, |blk.copies|, bbDfsOrder[..i]);
        RunInstr(f, ids, bbDfsOrder, i, |blk.body|, |blk.copies|, nextId);
        ids := ids.(instr := ids.instr[(bb, |blk.body|) := nextId]);
        owner := owner[nextId := InstrAt(bb, |blk.body|)];
        nextId := nextId + 1;
        RunDone(f, ids, bbDfsOrder, i);
      }
      AllNumbered(f, ids, owner, bbDfsOrder, nextId);
    }

    /** The join of the live-in sets of the successors, each taken at its first numbered entity. */
    method JoinFor(bb: Block) returns (out: set<Val>)
      requires f.Valid() && Numbered(f, ids, owner) && bb < |f.blocks|
      ensures IsJoin(f, ids, inSet, bb, out)
    {
      out := {};
      for i := 0 to |f.g.succs[bb]|
        invariant forall v :: v in out <==>
                    exists j :: 0 <= j < i && f.g.succs[bb][j] < |f.blocks| && v in In(f, ids, inSet, f.g.succs[bb][j], 0)
      {
        var succ := f.g.succs[bb][i];
        assert f.g.Edge(bb, succ);
        var blk := f.blocks[succ];
        FirstId(succ);
        var entryId := ids.instr[(succ, 0)];
        if blk.body == [] && blk.copies != [] {
          entryId := ids.copy[blk.copies[0]];
        }
        if entryId in inSet {
          out := out + inSet[entryId];
        }
      }
      JoinIsUpTo(f, ids, inSet, bb, out, |f.g.succs[bb]|);
    }

    lemma FirstId(b: Block)
      requires Numbered(f, ids, owner) && b < |f.blocks|
      ensures (b, 0) in ids.instr && (f.blocks[b].copies != [] ==> f.blocks[b].copies[0] in ids.copy)
      ensures StepId(f, ids, b, 0) ==
              if f.blocks[b].body == [] && f.blocks[b].copies != [] then ids.copy[f.blocks[b].copies[0]]
              else ids.instr[(b, 0)]
    {
      assert HasInstrId(ids, owner, b, 0);
      assert f.blocks[b].copies != [] ==> HasCopyId(f, ids, owner, b, 0);
    }

    /** in = use + (out - def). */
    method TransferFunction(instr: Ins, curOut: set<Val>) returns (res: set<Val>)
      ensures res == RegsOf(instr.ops) + (curOut - if instr.def.Some? then {instr.def.value} else {})
    {
      res := curOut;
      if instr.def.Some? {
        res := res - {instr.def.value};
      }
      ghost var base := res;
      for i := 0 to |instr.ops|
        invariant res == base + RegsOf(instr.ops[..i])
      {
        assert instr.ops[..i + 1] == instr.ops[..i] + [instr.ops[i]];
        if instr.ops[i].Reg? {
          res := res + {instr.ops[i].v};
        }
      }
      assert instr.ops[..|instr.ops|] == instr.ops;
    }

    /** The parallel copies of `bb`: in = (out - targets) + sources, the same for every copy. */
    method ProcessCopyStmts(bb: Block, liveOut: set<Val>, ghost ins: Table, ghost outs: Table, ghost out: set<Val>)
        returns (liveIn: set<Val>)
      requires Numbered(f, ids, owner) && bb < |f.blocks| && f.blocks[bb].term.def.None?
      requires var k := f.blocks[bb].StepCount() - 1;
               liveOut == Flow(f, bb, k, out) &&
               VisitedFrom(f, ids, ins, inSet, bb, out, k) && OutsFrom(f, ids, outs, outSet, bb, out, k)
      requires Tidy(f, ids, owner, inSet) && Tidy(f, ids, owner, outSet)
      modifies this`inSet, this`outSet
      ensures Tidy(f, ids, owner, inSet) && Tidy(f, ids, owner, outSet)
      ensures var k := |f.blocks[bb].body|;
              && liveIn == Flow(f, bb, k, out)
              && VisitedFrom(f, ids, ins, inSet, bb, out, k) && OutsFrom(f, ids, outs, outSet, bb, out, k)
              && (Gained(f, ids, ins, bb, out, k) <==> Gained(f, ids, ins, bb, out, f.blocks[bb].StepCount() - 1))
    {
      hide VisitedFrom, OutsFrom, Gained, Numbered, Tidy, TidyUpTo, PlaceId;
      var copies := f.blocks[bb].copies;
      if copies == [] {
        return liveOut;
      }
      liveIn := liveOut;
      for i := 0 to |copies|
        invariant liveIn == liveOut - Targets(copies[..i])
      {
        assert copies[..i + 1] == copies[..i] + [copies[i]];
        liveIn := liveIn - {copies[i].0};
      }
      for i := 0 to |copies|
        invariant liveIn == liveOut - Targets(copies) + Sources(copies[..i])
      {
        assert copies[..i + 1] == copies[..i] + [copies[i]];
        if copies[i].1.Reg? {
          liveIn := liveIn + {copies[i].1.v};
        }
      }
      assert copies[..|copies|] == copies;
      assert liveIn == Flow(f, bb, |f.blocks[bb].body|, out);
      VisitCopies(f, ids, owner, ins, inSet, outs, outSet, bb, out);
      CopyId(bb, 0);
      TidyStart(f, ids, owner, inSet, bb, liveIn);
      TidyStart(f, ids, owner, outSet, bb, liveOut);
      TidyCopy(f, ids, owner, inSet, bb, 0, liveIn);
      TidyCopy(f, ids, owner, outSet, bb, 0, liveOut);
      outSet := outSet[ids.copy[copies[0]] := liveOut];
      inSet := inSet[ids.copy[copies[0]] := liveIn];
      for i := 1 to |copies|
        invariant TidyUpTo(f, ids, owner, inSet, bb, i, liveIn) && TidyUpTo(f, ids, owner, outSet, bb, i, liveOut)
        invariant VisitedFrom(f, ids, ins, inSet, bb, out, |f.blocks[bb].body|)
        invariant OutsFrom(f, ids, outs, outSet, bb, out, |f.blocks[bb].body|)
      {
        FurtherCopy(f, ids, owner, ins, inSet, outs, outSet, bb, out, |f.blocks[bb].body|, i, liveIn, liveOut);
        CopyId(bb, i);
        TidyCopy(f, ids, owner, inSet, bb, i, liveIn);
        TidyCopy(f, ids, owner, outSet, bb, i, liveOut);
        outSet := outSet[ids.copy[copies[i]] := liveOut];
        inSet := inSet[ids.copy[copies[i]] := liveIn];
      }
      TidyDone(f, ids, owner, inSet, bb, liveIn);
      TidyDone(f, ids, owner, outSet, bb, liveOut);
    }

    lemma CopyId(b: Block, j: nat)
      requires Numbered(f, ids, owner) && b < |f.blocks| && j < |f.blocks[b].copies|
      ensures f.blocks[b].copies[j] in ids.copy && ids.copy[f.blocks[b].copies[j]] == PlaceId(f, ids, CopyAt(b, j))
      ensures f.blocks[b].copies[0] in ids.copy
      ensures ids.copy[f.blocks[b].copies[0]] == StepId(f, ids, b, |f.blocks[b].body|)
    {
      assert HasCopyId(f, ids, owner, b, 0) && HasCopyId(f, ids, owner, b, j);
    }

    /** One backward visit of a block: its instructions gain what flows to them, its copies are set. */
    method VisitBlock(bb: Block) returns (changed: bool, ghost out: set<Val>)
      requires f.Valid() && Numbered(f, ids, owner) && bb < |f.blocks|
      requires Tidy(f, ids, owner, inSet) && Tidy(f, ids, owner, outSet)
      modifies this`inSet, this`outSet
      ensures Tidy(f, ids, owner, inSet) && Tidy(f, ids, owner, outSet)
      ensures IsJoin(f, ids, old(inSet), bb, out) && Visited(f, ids, old(inSet), inSet, bb, out)
      ensures OutsFrom(f, ids, old(outSet), outSet, bb, out, 0)
      ensures changed <==> Gained(f, ids, old(inSet), bb, out, 0)
    {
      hide VisitedFrom, OutsFrom, Gained, Numbered, IsJoin, Visited, Tidy;
      var curOut := JoinFor(bb);
      out := curOut;
      ghost var ins, outs := inSet, outSet;
      var blk := f.blocks[bb];
      ghost var last := blk.StepCount() - 1;
      NothingVisited(f, ids, ins, outs, bb, out);
      changed, curOut := VisitOne(bb, |blk.body|, last, blk.term, curOut, false, ins, outs, out);
      curOut := ProcessCopyStmts(bb, curOut, ins, outs, out);
      for k := |blk.body| downto 0
        invariant curOut == Flow(f, bb, k, out) && Tidy(f, ids, owner, inSet) && Tidy(f, ids, owner, outSet)
        invariant VisitedFrom(f, ids, ins, inSet, bb, out, k) && OutsFrom(f, ids, outs, outSet, bb, out, k)
        invariant changed <==> Gained(f, ids, ins, bb, out, k)
      {
        changed, curOut := VisitOne(bb, k, k, blk.body[k], curOut, changed, ins, outs, out);
      }
      AllVisited(f, ids, ins, inSet, bb, out);
    }

    /** One instruction: records what is live after it, and adds what is live before it. */
    method VisitOne(bb: Block, index: nat, ghost k: nat, instr: Ins, curOut: set<Val>, before: bool,
                    ghost ins: Table, ghost outs: Table, ghost out: set<Val>) returns (changed: bool, newIn: set<Val>)
      requires Numbered(f, ids, owner) && bb < |f.blocks| && k < f.blocks[bb].StepCount()
      requires !f.blocks[bb].IsCopyStep(k) && instr == f.blocks[bb].InsAt(k)
      requires index == if k < |f.blocks[bb].body| then k else |f.blocks[bb].body|
      requires curOut == Flow(f, bb, k + 1, out)
      requires VisitedFrom(f, ids, ins, inSet, bb, out, k + 1) && OutsFrom(f, ids, outs, outSet, bb, out, k + 1)
      requires before <==> Gained(f, ids, ins, bb, out, k + 1)
      requires Tidy(f, ids, owner, inSet) && Tidy(f, ids, owner, outSet)
      modifies this`inSet, this`outSet
      ensures Tidy(f, ids, owner, inSet) && Tidy(f, ids, owner, outSet)
      ensures newIn == Flow(f, bb, k, out)
      ensures VisitedFrom(f, ids, ins, inSet, bb, out, k) && OutsFrom(f, ids, outs, outSet, bb, out, k)
      ensures changed <==> Gained(f, ids, ins, bb, out, k)
    {
      hide VisitedFrom, OutsFrom, Gained, Numbered, Tidy;
      InstrId(bb, k);
      var id := ids.instr[(bb, index)];
      newIn := TransferFunction(instr, curOut);
      VisitInstr(f, ids, owner, ins, inSet, outs, outSet, bb, out, k);
      TidyInstr(f, ids, owner, inSet, bb, k, At(inSet, id) + newIn);
      TidyInstr(f, ids, owner, outSet, bb, k, curOut);
      outSet := outSet[id := curOut];
      changed := before || !(newIn <= At(inSet, id));
      inSet := inSet[id := At(inSet, id) + newIn];
    }

    /** Liveness for the whole function, by passes over the blocks in reverse discovery order. */
    method Solve()
      requires f.Valid() && CopiesDistinct(f) && f.g.preds[ENTRY] == [] && Numbered(f, ids, owner)
      requires Discovered(f.g, bbDfsOrder) && forall b: Block :: b in bbDfsOrder <==> b < f.g.Size()
      requires inSet == map[] && outSet == map[]
      modifies this`inSet, this`outSet
      ensures Exact(f, ids, inSet, outSet) && Tidy(f, ids, owner, inSet) && Tidy(f, ids, owner, outSet)
    {
      hide Tidy, Discovered, CopiesDistinct, Numbered, SoundSets, Supported, FirstPass, LaterPass, AtFixpoint,
           CopyAgrees, Exact;
      var changed := true;
      ghost var first := true;
      BeforeAnyPass(f, ids);
      TidyEmpty(f, ids, owner);
      while changed
        invariant SoundSets(f, ids, inSet) && Supported(f, ids, inSet)
        invariant Tidy(f, ids, owner, inSet) && Tidy(f, ids, owner, outSet)
        invariant first ==> changed && inSet == map[]
        invariant !first ==> LaterPass(f, ids, bbDfsOrder, if changed then |bbDfsOrder| else 0, inSet, outSet, changed)
        decreases first, Missing(f, ids, inSet), changed
      {
        changed := false;
        ghost var s0 := inSet;
        PassBegins(f, ids, bbDfsOrder, inSet, outSet, first);
        for i := |bbDfsOrder| downto 0
          invariant SoundSets(f, ids, inSet) && Supported(f, ids, inSet)
          invariant Tidy(f, ids, owner, inSet) && Tidy(f, ids, owner, outSet)
          invariant Missing(f, ids, inSet) <= Missing(f, ids, s0) && (changed ==> Missing(f, ids, inSet) < Missing(f, ids, s0))
          invariant if first then FirstPass(f, ids, bbDfsOrder, i, inSet, outSet, changed)
                    else LaterPass(f, ids, bbDfsOrder, i, inSet, outSet, changed)
        {
          ghost var ins, outs := inSet, outSet;
          InOrder(f.g, bbDfsOrder, i);
          var gained, out := VisitBlock(bbDfsOrder[i]);
          VisitKeeps(f, ids, bbDfsOrder, i, ins, inSet, outs, outSet, out, first, changed);
          changed := changed || gained;
        }
        PassEnds(f, ids, bbDfsOrder, inSet, outSet, first, changed);
        first := false;
      }
      LaterDone(f, ids, bbDfsOrder, inSet, outSet);
      FixpointIsExact(f, ids, inSet, outSet);
    }

    /** Numbers the function's code, finds what is live where, and from it every value's interval. */
    method Run()
      requires f.Valid() && CopiesDistinct(f) && f.g.preds[ENTRY] == [] && Describes(f, values)
      modifies this
      ensures Numbered(f, ids, owner) && Exact(f, ids, inSet, outSet)
      ensures ExactIntervals(f, ids, intervalMap)
      ensures Scannable(liveIntervals) && Lists(liveIntervals, intervalMap, values)
      ensures Discovered(f.g, bbDfsOrder) && InExecutionOrder(f, ids, bbDfsOrder)
    {
      hide Numbered, Exact, Tidy, Discovered, CopiesDistinct, Scannable, InExecutionOrder;
      inSet, outSet, intervalMap, liveIntervals := map[], map[], map[], [];
      GetDfsOrder();
      MakeId();
      Solve();
      ghost var ins, outs := inSet, outSet;
      inSet := inSet[0 := f.args];
      outSet := outSet[0 := {}];
      ExactStill(f, ids, owner, ins, outs);
      MakeInterval();
      HullIsExact(f, ids, owner, ins, outs, intervalMap);
      SortedIsScannable(f, ids, owner, values, intervalMap, liveIntervals);
    }

    method Touch(v: Val, pos: int)
      requires forall x :: x in intervalMap ==> 0 <= intervalMap[x].start && 0 <= intervalMap[x].end
      modifies this`intervalMap
      ensures intervalMap == Widen(old(intervalMap), v, pos)
    {
      var iv := if v in intervalMap then intervalMap[v] else Interval(UNINITIAL, UNINITIAL);
      if iv.start == UNINITIAL || pos < iv.start {
        iv := iv.(start := pos);
      }
      if iv.end == UNINITIAL || pos > iv.end {
        iv := iv.(end := pos);
      }
      intervalMap := intervalMap[v := iv];
    }

    /** Touches every value of `live` at `pos`. */
    method TouchAll(live: set<Val>, pos: nat, ghost touched: set<(Val, int)>) returns (ghost touched': set<(Val, int)>)
      requires Hull(intervalMap, touched) && forall v, p :: (v, p) in touched ==> 0 <= p
      modifies this`intervalMap
      ensures Hull(intervalMap, touched') && touched' == touched + set v | v in live :: (v, pos)
    {
      hide Hull, Widen;
      var rest := live;
      touched' := touched;
      while rest != {}
        invariant rest <= live && touched' == touched + (set v | v in live - rest :: (v, pos))
        invariant Hull(intervalMap, touched') && forall v, p :: (v, p) in touched' ==> 0 <= p
        decreases rest
      {
        var v :| v in rest;
        HullNotNegative(intervalMap, touched');
        WidenHull(intervalMap, touched', v, pos);
        Touch(v, pos);
        touched' := touched' + {(v, pos)};
        rest := rest - {v};
      }
    }

    /** The interval of each value, from the entries of both tables, which may come in any order. */
    method MakeInterval()
      requires intervalMap == map[] && liveIntervals == [] && forall v :: values(v).id == v
      requires (forall id :: id in inSet ==> 0 <= id) && forall id :: id in outSet ==> 0 <= id
      modifies this`intervalMap, this`liveIntervals
      ensures Hull(intervalMap, Touched(inSet, inSet.Keys, InPos) + Touched(outSet, outSet.Keys, OutPos))
      ensures Lists(liveIntervals, intervalMap, values)
      ensures SortedBy(liveIntervals, StartsBefore)
    {
      ghost var touched := TouchTable(inSet, InPos, {});
      touched := TouchTable(outSet, OutPos, touched);
      assert touched == Touched(inSet, inSet.Keys, InPos) + Touched(outSet, outSet.Keys, OutPos);
      FillIntervals();
    }

    /** Lists the intervals in the order of the scan. */
    method FillIntervals()
      requires liveIntervals == [] && forall v :: values(v).id == v
      modifies this`liveIntervals
      ensures Lists(liveIntervals, intervalMap, values) && SortedBy(liveIntervals, StartsBefore)
    {
      hide StartsBefore;
      var rest := intervalMap.Keys;
      while rest != {}
        invariant rest <= intervalMap.Keys && SortedBy(liveIntervals, StartsBefore)
        invariant ListsBut(liveIntervals, intervalMap, values, rest)
        decreases rest
      {
        var v :| v in rest;
        ListOneMore(liveIntervals, intervalMap, values, rest, v);
        InsertInterval(IntervalOf(intervalMap, v, values));
        rest := rest - {v};
      }
    }

    method TouchTable(t: Table, pos: int -> int, ghost touched: set<(Val, int)>)
        returns (ghost touched': set<(Val, int)>)
      requires Hull(intervalMap, touched) && forall v, p :: (v, p) in touched ==> 0 <= p
      requires forall id :: id in t ==> 0 <= pos(id)
      modifies this`intervalMap
      ensures Hull(intervalMap, touched') && touched' == touched + Touched(t, t.Keys, pos)
      ensures forall v, p :: (v, p) in touched' ==> 0 <= p
    {
      hide Hull, Touched;
      TouchedNone(t, pos);
      var rest: set<int> := t.Keys;
      touched' := touched;
      while rest != {}
        invariant rest <= t.Keys && touched' == touched + Touched(t, t.Keys - rest, pos)
        invariant Hull(intervalMap, touched') && forall v, p :: (v, p) in touched' ==> 0 <= p
        decreases rest
      {
        HasMember(rest);
        var id :| id in rest;
        touched' := TouchAll(t[id], pos(id), touched');
        TouchedMore(t, rest, pos, id);
        rest := rest - {id};
      }
    }

    /** Inserts into the ordered list. */
    method InsertInterval(x: LiveInterval)
      requires SortedBy(liveIntervals, StartsBefore) && forall y :: y in liveIntervals ==> y.val.id != x.val.id
      modifies this`liveIntervals
      ensures SortedBy(liveIntervals, StartsBefore)
      ensures forall y :: y in liveIntervals <==> y in old(liveIntervals) || y == x
    {
      var i := 0;
      while i < |liveIntervals| && StartsBefore(liveIntervals[i], x)
        invariant i <= |liveIntervals| && forall j :: 0 <= j < i ==> StartsBefore(liveIntervals[j], x)
      {
        i := i + 1;
      }
      liveIntervals := liveIntervals[..i] + [x] + liveIntervals[i..];
    }

    lemma InstrId(b: Block, k: nat)
      requires Numbered(f, ids, owner) && b < |f.blocks| && k < f.blocks[b].StepCount() && !f.blocks[b].IsCopyStep(k)
      ensures var key := (b, if k < |f.blocks[b].body| then k else |f.blocks[b].body|);
              key in ids.instr && ids.instr[key] == StepId(f, ids, b, k)
    {
      assert HasInstrId(ids, owner, b, if k < |f.blocks[b].body| then k else |f.blocks[b].body|);
    }
  }

  lemma NothingVisited(f: Fun, ids: Ids, ins: Table, outs: Table, b: Block, out: set<Val>)
    requires b < |f.blocks|
    ensures var n := f.blocks[b].StepCount();
            && VisitedFrom(f, ids, ins, ins, b, out, n) && OutsFrom(f, ids, outs, outs, b, out, n)
            && !Gained(f, ids, ins, b, out, n)
  {
  }

  lemma AllVisited(f: Fun, ids: Ids, ins: Table, ins': Table, b: Block, out: set<Val>)
    requires b < |f.blocks| && VisitedFrom(f, ids, ins, ins', b, out, 0)
    ensures Visited(f, ids, ins, ins', b, out)
  {
  }

  // ----- numbering -----

  ghost predicate NumberedBelow(owner: map<int, Place>, n: int) {
    forall id :: id in owner ==> 0 < id < n
  }

  /** The first `kk` instructions and `jj` copies of `b` have numbers. */
  ghost predicate BlockNumbered(f: Fun, ids: Ids, owner: map<int, Place>, b: Block, kk: nat, jj: nat) {
    && b < |f.blocks|
    && (forall k: nat :: k < kk && k <= |f.blocks[b].body| ==> HasInstrId(ids, owner, b, k))
    && (forall j: nat :: j < jj && j < |f.blocks[b].copies| ==> HasCopyId(f, ids, owner, b, j))
  }

  ghost predicate BlockFullyNumbered(f: Fun, ids: Ids, owner: map<int, Place>, b: Block) {
    b < |f.blocks| && BlockNumbered(f, ids, owner, b, |f.blocks[b].body| + 1, |f.blocks[b].copies|)
  }

  lemma NotYet(g: Cfg, order: seq<Block>, i: nat)
    requires Discovered(g, order) && i < |order|
    ensures order[i] < g.Size() && forall j :: 0 <= j < i ==> order[j] != order[i]
    ensures forall j :: 0 <= j < i ==> order[j] < g.Size()
  {
  }

  lemma NothingNumbered(f: Fun, ids: Ids, owner: map<int, Place>, b: Block)
    requires b < |f.blocks|
    ensures BlockNumbered(f, ids, owner, b, 0, 0)
  {
  }

  /** A new number, given to something that had none, takes no number away. */
  ghost predicate KeepsNumbers(f: Fun, ids: Ids, owner: map<int, Place>, ids': Ids, owner': map<int, Place>) {
    && (forall b: Block, k: nat {:trigger HasInstrId(ids, owner, b, k)} ::
          HasInstrId(ids, owner, b, k) ==> HasInstrId(ids', owner', b, k))
    && (forall b: Block, j: nat {:trigger HasCopyId(f, ids, owner, b, j)} ::
          b < |f.blocks| && j < |f.blocks[b].copies| && HasCopyId(f, ids, owner, b, j) ==> HasCopyId(f, ids', owner', b, j))
  }

  lemma KeepsBlock(f: Fun, ids: Ids, owner: map<int, Place>, ids': Ids, owner': map<int, Place>, b: Block, kk: nat,
                   jj: nat)
    requires KeepsNumbers(f, ids, owner, ids', owner') && BlockNumbered(f, ids, owner, b, kk, jj)
    ensures BlockNumbered(f, ids', owner', b, kk, jj)
  {
    forall k: nat | k < kk && k <= |f.blocks[b].body|
      ensures HasInstrId(ids', owner', b, k)
    {
      assert HasInstrId(ids, owner, b, k);
    }
    forall j: nat | j < jj && j < |f.blocks[b].copies|
      ensures HasCopyId(f, ids', owner', b, j)
    {
      assert HasCopyId(f, ids, owner, b, j);
    }
  }

  lemma KeepsBlocks(f: Fun, ids: Ids, owner: map<int, Place>, ids': Ids, owner': map<int, Place>, before: seq<Block>)
    requires KeepsNumbers(f, ids, owner, ids', owner')
    requires forall c :: c in before ==> BlockFullyNumbered(f, ids, owner, c)
    ensures forall c :: c in before ==> BlockFullyNumbered(f, ids', owner', c)
  {
    hide KeepsNumbers, BlockNumbered;
    forall c | c in before
      ensures BlockFullyNumbered(f, ids', owner', c)
    {
      KeepsBlock(f, ids, owner, ids', owner', c, |f.blocks[c].body| + 1, |f.blocks[c].copies|);
    }
  }

  lemma NumberInstr(f: Fun, ids: Ids, owner: map<int, Place>, n: int, b: Block, k: nat, jj: nat, before: seq<Block>)
    requires b < |f.blocks| && k <= |f.blocks[b].body| && NumberedBelow(owner, n) && 0 < n
    requires BlockNumbered(f, ids, owner, b, k, jj)
    requires forall c :: c in before ==> c != b && BlockFullyNumbered(f, ids, owner, c)
    ensures var ids', owner' := ids.(instr := ids.instr[(b, k) := n]), owner[n := InstrAt(b, k)];
            && NumberedBelow(owner', n + 1) && BlockNumbered(f, ids', owner', b, k + 1, jj)
            && (forall c :: c in before ==> BlockFullyNumbered(f, ids', owner', c))
  {
    hide BlockFullyNumbered, BlockNumbered;
    var ids', owner' := ids.(instr := ids.instr[(b, k) := n]), owner[n := InstrAt(b, k)];
    KeepsInstr(f, ids, owner, n, b, k);
    KeepsBlocks(f, ids, owner, ids', owner', before);
    KeepsBlock(f, ids, owner, ids', owner', b, k, jj);
    assert HasInstrId(ids', owner', b, k);
    OneMoreInstr(f, ids', owner', b, k, jj);
  }

  lemma OneMoreInstr(f: Fun, ids: Ids, owner: map<int, Place>, b: Block, k: nat, jj: nat)
    requires BlockNumbered(f, ids, owner, b, k, jj) && HasInstrId(ids, owner, b, k)
    ensures BlockNumbered(f, ids, owner, b, k + 1, jj)
  {
  }

  lemma KeepsInstr(f: Fun, ids: Ids, owner: map<int, Place>, n: int, b: Block, k: nat)
    requires NumberedBelow(owner, n)
    ensures KeepsNumbers(f, ids, owner, ids.(instr := ids.instr[(b, k) := n]), owner[n := InstrAt(b, k)])
  {
    var ids', owner' := ids.(instr := ids.instr[(b, k) := n]), owner[n := InstrAt(b, k)];
    forall c: Block, l: nat | HasInstrId(ids, owner, c, l)
      ensures HasInstrId(ids', owner', c, l)
    {
      assert owner'[n] == InstrAt(b, k);
    }
  }

  lemma NumberCopy(f: Fun, ids: Ids, owner: map<int, Place>, n: int, b: Block, kk: nat, j: nat, before: seq<Block>)
    requires CopiesDistinct(f)
    requires b < |f.blocks| && j < |f.blocks[b].copies| && NumberedBelow(owner, n) && 0 < n
    requires BlockNumbered(f, ids, owner, b, kk, j)
    requires forall c :: c in before ==> c != b && BlockFullyNumbered(f, ids, owner, c)
    ensures var ids', owner' := ids.(copy := ids.copy[f.blocks[b].copies[j] := n]), owner[n := CopyAt(b, j)];
            && NumberedBelow(owner', n + 1) && BlockNumbered(f, ids', owner', b, kk, j + 1)
            && (forall c :: c in before ==> BlockFullyNumbered(f, ids', owner', c))
  {
    hide BlockFullyNumbered, BlockNumbered, CopiesDistinct;
    var ids', owner' := ids.(copy := ids.copy[f.blocks[b].copies[j] := n]), owner[n := CopyAt(b, j)];
    KeepsCopy(f, ids, owner, n, b, j);
    KeepsBlocks(f, ids, owner, ids', owner', before);
    KeepsBlock(f, ids, owner, ids', owner', b, kk, j);
    assert HasCopyId(f, ids', owner', b, j);
    OneMoreCopy(f, ids', owner', b, kk, j);
  }

  lemma OneMoreCopy(f: Fun, ids: Ids, owner: map<int, Place>, b: Block, kk: nat, j: nat)
    requires b < |f.blocks| && j < |f.blocks[b].copies|
    requires BlockNumbered(f, ids, owner, b, kk, j) && HasCopyId(f, ids, owner, b, j)
    ensures BlockNumbered(f, ids, owner, b, kk, j + 1)
  {
  }

  lemma KeepsCopy(f: Fun, ids: Ids, owner: map<int, Place>, n: int, b: Block, j: nat)
    requires CopiesDistinct(f) && b < |f.blocks| && j < |f.blocks[b].copies| && NumberedBelow(owner, n)
    ensures KeepsNumbers(f, ids, owner, ids.(copy := ids.copy[f.blocks[b].copies[j] := n]), owner[n := CopyAt(b, j)])
  {
    var ids', owner' := ids.(copy := ids.copy[f.blocks[b].copies[j] := n]), owner[n := CopyAt(b, j)];
    forall c: Block, l: nat | c < |f.blocks| && l < |f.blocks[c].copies| && HasCopyId(f, ids, owner, c, l)
      ensures HasCopyId(f, ids', owner', c, l)
    {
      assert f.blocks[c].copies[l] == f.blocks[b].copies[j] ==> c == b && l == j;
    }
  }

  lemma AllNumbered(f: Fun, ids: Ids, owner: map<int, Place>, order: seq<Block>, n: int)
    requires forall b: Block :: b in order <==> b < f.g.Size()
    requires |f.blocks| == f.g.Size() && NumberedBelow(owner, n)
    requires forall i :: 0 <= i < |order| ==> BlockFullyNumbered(f, ids, owner, order[i])
    ensures Numbered(f, ids, owner)
  {
    forall b: Block | b < |f.blocks|
      ensures BlockFullyNumbered(f, ids, owner, b)
    {
      assert b in order;
      var i :| 0 <= i < |order| && order[i] == b;
    }
    forall b: Block, k: nat | b < |f.blocks| && k <= |f.blocks[b].body|
      ensures HasInstrId(ids, owner, b, k)
    {
      assert BlockFullyNumbered(f, ids, owner, b);
    }
    forall b: Block, j: nat | b < |f.blocks| && j < |f.blocks[b].copies|
      ensures HasCopyId(f, ids, owner, b, j)
    {
      assert BlockFullyNumbered(f, ids, owner, b);
    }
  }

  // ----- passes over the blocks, in reverse discovery order -----

  /** The blocks of the order, from position `i` on, have been visited in the first pass. */
  ghost predicate FirstPass(f: Fun, ids: Ids, order: seq<Block>, i: nat, ins: Table, outs: Table, changed: bool)
    requires f.Valid()
  {
    && (forall j {:trigger order[j]} :: 0 <= j < i && j < |order| ==> order[j] < |f.blocks| && Untouched(f, ids, ins, order[j]))
    && (forall j {:trigger order[j]} :: i <= j < |order| ==> order[j] < |f.blocks| && CopyAgrees(f, ids, ins, order[j]))
    && (!changed ==> forall j {:trigger order[j]} :: i <= j < |order| ==>
          order[j] < |f.blocks| && Idle(f, ids, ins, outs, order[j]) && QuietLater(f, ids, order, j, ins))
  }

  /** Nothing is live at the start of the later blocks that an edge leads to. */
  ghost predicate QuietLater(f: Fun, ids: Ids, order: seq<Block>, j: nat, ins: Table)
    requires j < |order|
  {
    forall k {:trigger order[k]} :: j < k < |order| && f.g.Edge(order[j], order[k]) && order[k] < |f.blocks| ==>
      In(f, ids, ins, order[k], 0) == {}
  }

  /** The blocks of the order, from position `i` on, have been visited in a later pass. */
  ghost predicate LaterPass(f: Fun, ids: Ids, order: seq<Block>, i: nat, ins: Table, outs: Table, changed: bool)
    requires f.Valid()
  {
    && (forall b: Block :: b < |f.blocks| ==> CopyAgrees(f, ids, ins, b))
    && (!changed ==> forall j {:trigger order[j]} :: i <= j < |order| ==>
          order[j] < |f.blocks| && AtFixpoint(f, ids, ins, outs, order[j]))
  }

  /** What one visit, of block `b`, does to the tables. */
  ghost predicate VisitOf(f: Fun, ids: Ids, ins: Table, ins': Table, outs: Table, outs': Table, b: Block, out: set<Val>)
    requires f.Valid() && b < |f.blocks|
  {
    && IsJoin(f, ids, ins, b, out) && Visited(f, ids, ins, ins', b, out)
    && OutsFrom(f, ids, outs, outs', b, out, 0)
  }

  lemma LaterStep(f: Fun, ids: Ids, order: seq<Block>, i: nat, ins: Table, ins': Table, outs: Table, outs': Table,
                  out: set<Val>, changed: bool)
    requires f.Valid() && i < |order| && order[i] < |f.blocks| && Supported(f, ids, ins)
    requires LaterPass(f, ids, order, i + 1, ins, outs, changed)
    requires VisitOf(f, ids, ins, ins', outs, outs', order[i], out)
    ensures LaterPass(f, ids, order, i, ins', outs', changed || Gained(f, ids, ins, order[i], out, 0))
  {
    hide Supported, CopyAgrees, Visited, Gained, AtFixpoint, IsJoin, OutsFrom;
    forall b: Block | b < |f.blocks|
      ensures CopyAgrees(f, ids, ins', b)
    {
      VisitAgrees(f, ids, ins, ins', order[i], out, b);
    }
    if !changed && !Gained(f, ids, ins, order[i], out, 0) {
      VisitIdle(f, ids, ins, ins', order[i], out);
      forall j | i <= j < |order|
        ensures order[j] < |f.blocks| && AtFixpoint(f, ids, ins', outs', order[j])
      {
        SameFixpoint(f, ids, ins, ins', outs, outs', order[i], out, order[j]);
      }
    }
  }

  lemma FirstStep(f: Fun, ids: Ids, order: seq<Block>, i: nat, ins: Table, ins': Table, outs: Table, outs': Table,
                  out: set<Val>, changed: bool)
    requires f.Valid() && i < |order| && Supported(f, ids, ins)
    requires forall j, k :: 0 <= j < k < |order| ==> order[j] != order[k]
    requires FirstPass(f, ids, order, i + 1, ins, outs, changed) && order[i] < |f.blocks|
    requires VisitOf(f, ids, ins, ins', outs, outs', order[i], out)
    ensures FirstPass(f, ids, order, i, ins', outs', changed || Gained(f, ids, ins, order[i], out, 0))
  {
    hide Supported, CopyAgrees, Visited, Gained, Idle, IsJoin, OutsFrom, QuietLater, Untouched;
    var b := order[i];
    forall j | 0 <= j < i
      ensures order[j] < |f.blocks| && Untouched(f, ids, ins', order[j])
    {
      KeptIdle(f, ids, ins, ins', outs, outs', b, out, order[j]);
    }
    forall j | i <= j < |order|
      ensures order[j] < |f.blocks| && CopyAgrees(f, ids, ins', order[j])
    {
      VisitAgrees(f, ids, ins, ins', b, out, order[j]);
    }
    if !changed && !Gained(f, ids, ins, b, out, 0) {
      FirstVisit(f, ids, ins, ins', outs, outs', b, out);
      forall j | i <= j < |order|
        ensures order[j] < |f.blocks| && Idle(f, ids, ins', outs', order[j]) && QuietLater(f, ids, order, j, ins')
      {
        if j == i {
          QuietHere(f, ids, order, i, ins, ins');
        } else {
          KeptIdle(f, ids, ins, ins', outs, outs', b, out, order[j]);
          QuietKept(f, ids, order, i, ins, ins', out, j);
        }
      }
    }
  }

  lemma JoinHas(f: Fun, ids: Ids, ins: Table, b: Block, out: set<Val>, s: Block)
    requires f.Valid() && b < |f.blocks| && IsJoin(f, ids, ins, b, out) && f.g.Edge(b, s) && s < |f.blocks|
    ensures In(f, ids, ins, s, 0) <= out
  {
  }

  lemma QuietHere(f: Fun, ids: Ids, order: seq<Block>, i: nat, ins: Table, ins': Table)
    requires f.Valid() && i < |order| && order[i] < |f.blocks|
    requires forall j, k :: 0 <= j < k < |order| ==> order[j] != order[k]
    requires IsJoin(f, ids, ins, order[i], {}) && Visited(f, ids, ins, ins', order[i], {})
    ensures QuietLater(f, ids, order, i, ins')
  {
    forall k | i < k < |order| && f.g.Edge(order[i], order[k]) && order[k] < |f.blocks|
      ensures In(f, ids, ins', order[k], 0) == {}
    {
      assert In(f, ids, ins', order[k], 0) == In(f, ids, ins, order[k], 0);
      JoinHas(f, ids, ins, order[i], {}, order[k]);
    }
  }

  lemma QuietKept(f: Fun, ids: Ids, order: seq<Block>, i: nat, ins: Table, ins': Table, out: set<Val>, j: nat)
    requires i < j < |order| && order[i] < |f.blocks| && Visited(f, ids, ins, ins', order[i], out)
    requires forall j, k :: 0 <= j < k < |order| ==> order[j] != order[k]
    requires QuietLater(f, ids, order, j, ins)
    ensures QuietLater(f, ids, order, j, ins')
  {
    forall k | j < k < |order| && f.g.Edge(order[j], order[k]) && order[k] < |f.blocks|
      ensures In(f, ids, ins', order[k], 0) == {}
    {
      assert In(f, ids, ins', order[k], 0) == In(f, ids, ins, order[k], 0);
    }
  }

  /** A first pass that gained nothing has already reached the fixpoint: since every block but the entry has an
      earlier predecessor, nothing is live at the start of any block that an edge leads to. */
  lemma FirstPassDone(f: Fun, ids: Ids, order: seq<Block>, ins: Table, outs: Table, b: Block)
    requires f.Valid() && f.g.preds[ENTRY] == [] && Discovered(f.g, order)
    requires forall c: Block :: c in order <==> c < f.g.Size()
    requires FirstPass(f, ids, order, 0, ins, outs, false) && b < |f.blocks|
    ensures AtFixpoint(f, ids, ins, outs, b)
  {
    hide Discovered, FirstPass;
    forall s: Block | f.g.Edge(b, s) && s < |f.blocks|
      ensures In(f, ids, ins, s, 0) == {}
    {
      QuietStart(f, ids, order, ins, outs, b, s);
    }
    assert IsJoin(f, ids, ins, b, {});
    IdleAt(f, ids, order, ins, outs, b);
    assert Holds(f, ids, ins, outs, b, {});
  }

  lemma IdleAt(f: Fun, ids: Ids, order: seq<Block>, ins: Table, outs: Table, b: Block)
    requires f.Valid() && b in order && FirstPass(f, ids, order, 0, ins, outs, false) && b < |f.blocks|
    ensures Idle(f, ids, ins, outs, b)
  {
    hide Idle, QuietLater;
    var j :| 0 <= j < |order| && order[j] == b;
  }

  lemma QuietStart(f: Fun, ids: Ids, order: seq<Block>, ins: Table, outs: Table, b: Block, s: Block)
    requires f.Valid() && f.g.preds[ENTRY] == [] && Discovered(f.g, order)
    requires forall c: Block :: c in order <==> c < f.g.Size()
    requires FirstPass(f, ids, order, 0, ins, outs, false) && f.g.Edge(b, s) && s < |f.blocks|
    ensures In(f, ids, ins, s, 0) == {}
  {
    hide Idle, CopyAgrees;
    assert s in order;
    var k :| 0 <= k < |order| && order[k] == s;
    assert k > 0;
    assert ReachedEarlier(f.g, order, k);
    var j :| 0 <= j < k && f.g.Edge(order[j], order[k]);
    assert QuietLater(f, ids, order, j, ins);
  }

  lemma InOrder(g: Cfg, order: seq<Block>, i: nat)
    requires Discovered(g, order) && i < |order|
    ensures order[i] < g.Size()
  {
  }

  lemma BeforeAnyPass(f: Fun, ids: Ids)
    requires f.Valid()
    ensures SoundSets(f, ids, map[]) && Supported(f, ids, map[])
  {
  }

  lemma PassBegins(f: Fun, ids: Ids, order: seq<Block>, ins: Table, outs: Table, first: bool)
    requires f.Valid() && Discovered(f.g, order) && (first ==> ins == map[])
    requires !first ==> LaterPass(f, ids, order, |order|, ins, outs, true)
    ensures if first then FirstPass(f, ids, order, |order|, ins, outs, false)
            else LaterPass(f, ids, order, |order|, ins, outs, false)
  {
  }

  /** Everything a visit keeps, in either kind of pass. */
  lemma VisitKeeps(f: Fun, ids: Ids, order: seq<Block>, i: nat, ins: Table, ins': Table, outs: Table, outs': Table,
                   out: set<Val>, first: bool, changed: bool)
    requires f.Valid() && i < |order| && Discovered(f.g, order) && order[i] < |f.blocks|
    requires SoundSets(f, ids, ins) && Supported(f, ids, ins)
    requires VisitOf(f, ids, ins, ins', outs, outs', order[i], out)
    requires if first then FirstPass(f, ids, order, i + 1, ins, outs, changed)
             else LaterPass(f, ids, order, i + 1, ins, outs, changed)
    ensures SoundSets(f, ids, ins') && Supported(f, ids, ins')
    ensures Missing(f, ids, ins') <= Missing(f, ids, ins)
    ensures Gained(f, ids, ins, order[i], out, 0) ==> Missing(f, ids, ins') < Missing(f, ids, ins)
    ensures var now := changed || Gained(f, ids, ins, order[i], out, 0);
            if first then FirstPass(f, ids, order, i, ins', outs', now) else LaterPass(f, ids, order, i, ins', outs', now)
  {
    hide SoundSets, Supported, FirstPass, LaterPass, IsJoin, Visited, OutsFrom, Gained, Missing;
    VisitSound(f, ids, ins, ins', order[i], out);
    VisitSupported(f, ids, ins, ins', order[i], out);
    VisitGrows(f, ids, ins, ins', order[i], out);
    MissingShrinks(f, ids, ins, ins');
    if Gained(f, ids, ins, order[i], out, 0) {
      MissingLess(f, ids, ins, ins', order[i], out);
    }
    if first {
      FirstStep(f, ids, order, i, ins, ins', outs, outs', out, changed);
    } else {
      LaterStep(f, ids, order, i, ins, ins', outs, outs', out, changed);
    }
  }

  lemma PassEnds(f: Fun, ids: Ids, order: seq<Block>, ins: Table, outs: Table, first: bool, changed: bool)
    requires f.Valid() && f.g.preds[ENTRY] == [] && Discovered(f.g, order)
    requires forall b: Block :: b in order <==> b < f.g.Size()
    requires if first then FirstPass(f, ids, order, 0, ins, outs, changed)
             else LaterPass(f, ids, order, 0, ins, outs, changed)
    ensures LaterPass(f, ids, order, if changed then |order| else 0, ins, outs, changed)
  {
    hide AtFixpoint, CopyAgrees, Idle, QuietLater, Untouched;
    if first {
      forall b: Block | b < |f.blocks|
        ensures CopyAgrees(f, ids, ins, b)
      {
        assert b in order;
        var j :| 0 <= j < |order| && order[j] == b;
      }
      if !changed {
        forall j | 0 <= j < |order|
          ensures order[j] < |f.blocks| && AtFixpoint(f, ids, ins, outs, order[j])
        {
          FirstPassDone(f, ids, order, ins, outs, order[j]);
        }
      }
    }
  }

  lemma LaterDone(f: Fun, ids: Ids, order: seq<Block>, ins: Table, outs: Table)
    requires f.Valid() && LaterPass(f, ids, order, 0, ins, outs, false)
    requires forall b: Block :: b in order <==> b < f.g.Size()
    ensures forall b: Block :: b < |f.blocks| ==> AtFixpoint(f, ids, ins, outs, b)
  {
    hide AtFixpoint, CopyAgrees;
    forall b: Block | b < |f.blocks|
      ensures AtFixpoint(f, ids, ins, outs, b)
    {
      assert b in order;
      var j :| 0 <= j < |order| && order[j] == b;
    }
  }

  // ----- the interval list -----

  /** What the values are: the function's arguments and its instructions, told apart by their ids. */
  ghost predicate Describes(f: Fun, values: Val -> RegValue) {
    && (forall v :: values(v).id == v && (values(v).Argument? <==> v in f.args))
    && (forall v, w :: v in f.args && w in f.args && values(v).no == values(w).no ==> v == w)
  }

  function IntervalOf(m: IntervalMap, v: Val, values: Val -> RegValue): LiveInterval
    requires v in m
  {
    LiveInterval(m[v].start, m[v].end, values(v))
  }

  ghost predicate Lists(ints: seq<LiveInterval>, m: IntervalMap, values: Val -> RegValue) {
    forall x :: x in ints <==> exists v :: v in m && x == IntervalOf(m, v, values)
  }

  /** Every interval is listed but those of `rest`. */
  ghost predicate ListsBut(ints: seq<LiveInterval>, m: IntervalMap, values: Val -> RegValue, rest: set<Val>) {
    forall x :: x in ints <==> exists v :: v in m && v !in rest && x == IntervalOf(m, v, values)
  }

  lemma ListOneMore(ints: seq<LiveInterval>, m: IntervalMap, values: Val -> RegValue, rest: set<Val>, v: Val)
    requires (forall w :: values(w).id == w) && ListsBut(ints, m, values, rest) && v in rest && v in m
    ensures forall y :: y in ints ==> y.val.id != v
    ensures forall ints' :: (forall y :: y in ints' <==> y in ints || y == IntervalOf(m, v, values)) ==>
              ListsBut(ints', m, values, rest - {v})
  {
    forall y | y in ints
      ensures y.val.id != v
    {
      var w :| w in m && w !in rest && y == IntervalOf(m, w, values);
    }
    forall ints' | forall y :: y in ints' <==> y in ints || y == IntervalOf(m, v, values)
      ensures ListsBut(ints', m, values, rest - {v})
    {
      forall x
        ensures x in ints' <==> exists w :: w in m && w !in rest - {v} && x == IntervalOf(m, w, values)
      {
        if w :| w in m && w !in rest - {v} && x == IntervalOf(m, w, values) {
        }
      }
    }
  }

  lemma HullNotNegative(m: IntervalMap, touched: set<(Val, int)>)
    requires Hull(m, touched) && forall v, p :: (v, p) in touched ==> 0 <= p
    ensures forall x :: x in m ==> 0 <= m[x].start && 0 <= m[x].end
  {
  }

  lemma HasMember(s: set<int>)
    requires s != {}
    ensures exists x :: x in s
  {
    assert (forall x :: x !in s) ==> s == {};
  }

  lemma TouchedNone(t: Table, pos: int -> int)
    ensures Touched(t, t.Keys - t.Keys, pos) == {}
    ensures t.Keys - {} == t.Keys
  {
  }

  lemma TouchedMore(t: Table, rest: set<int>, pos: int -> int, id: int)
    requires id in rest && rest <= t.Keys
    ensures Touched(t, t.Keys - (rest - {id}), pos) ==
            Touched(t, t.Keys - rest, pos) + set v | v in t[id] :: (v, pos(id))
  {
    assert t.Keys - (rest - {id}) == (t.Keys - rest) + {id};
  }

  lemma ExactStill(f: Fun, ids: Ids, owner: map<int, Place>, ins: Table, outs: Table)
    requires f.Valid() && Numbered(f, ids, owner) && Exact(f, ids, ins, outs)
    requires Tidy(f, ids, owner, ins) && Tidy(f, ids, owner, outs)
    ensures Exact(f, ids, ins[0 := f.args], outs[0 := {}])
    ensures (forall id :: id in ins ==> 0 <= id) && forall id :: id in outs ==> 0 <= id
  {
    hide Numbered;
    forall b: Block, k: nat, v | b < |f.blocks| && k < f.blocks[b].StepCount()
      ensures v in In(f, ids, ins[0 := f.args], b, k) <==> f.Live(v, b, k)
      ensures v in At(outs[0 := {}], StepId(f, ids, b, k)) <==> f.Live(v, b, k + 1)
    {
      StepIdOwner(f, ids, owner, b, k);
    }
    forall id | id in ins || id in outs
      ensures 0 <= id
    {
      assert Owned(f, ids, owner, id);
      PlaceOwner(f, ids, owner, owner[id]);
    }
  }

  lemma StartOf(f: Fun, ids: Ids, owner: map<int, Place>, m: IntervalMap, v: Val)
    requires f.Valid() && Numbered(f, ids, owner) && ExactIntervals(f, ids, m) && v in m
    ensures m[v].start <= m[v].end && if v in f.args then m[v].start == 0 else 0 < m[v].start
  {
    assert LiveAtPos(f, ids, v, m[v].start);
    if exists pl: Place :: IsPlace(f, pl) && LiveAround(f, ids, v, m[v].start, pl) {
      var pl: Place :| IsPlace(f, pl) && LiveAround(f, ids, v, m[v].start, pl);
      PlaceOwner(f, ids, owner, pl);
    }
    assert v in f.args ==> LiveAtPos(f, ids, v, 0);
  }

  lemma SortedIsScannable(f: Fun, ids: Ids, owner: map<int, Place>, values: Val -> RegValue, m: IntervalMap,
                          ints: seq<LiveInterval>)
    requires f.Valid() && Numbered(f, ids, owner) && ExactIntervals(f, ids, m) && Describes(f, values)
    requires SortedBy(ints, StartsBefore) && Lists(ints, m, values)
    ensures Scannable(ints)
  {
    hide Numbered, ExactIntervals;
    forall x | x in ints
      ensures x.start <= x.end && if x.val.Argument? then x.start == 0 else 0 < x.start
    {
      var v :| v in m && x == IntervalOf(m, v, values);
      StartOf(f, ids, owner, m, v);
    }
    forall i, j | 0 <= i < j < |ints|
      ensures ints[i].val.id != ints[j].val.id
    {
      assert ints[i] in ints && ints[j] in ints;
      assert StartsBefore(ints[i], ints[j]);
    }
  }
}
