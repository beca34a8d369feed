/** Hoisting from one loop after another, inner loops first. */
module LoopTrees {
  import opened Basics
  import opened Graphs
  import opened UseDef
  import opened TopologicalOrders
  import opened HeapCode
  import opened HoistedHeap
  import opened LoopInvHoist

  /** A loop, the base recorded for it, and the loops that count as its own. */
  datatype LoopTree = LoopTree(loop: set<Block>, base: Option<Block>, subloops: seq<LoopTree>)

  /** Inner loops first. */
  function PostOrder(t: LoopTree): seq<LoopTree>
    decreases t, |t.subloops| + 1
  {
    SubOrder(t, |t.subloops|) + [t]
  }

  function SubOrder(t: LoopTree, k: nat): seq<LoopTree>
    requires k <= |t.subloops|
    decreases t, k
  {
    if k == 0 then [] else SubOrder(t, k - 1) + PostOrder(t.subloops[k - 1])
  }

  /** The loops' blocks. */
  function Covered(order: seq<LoopTree>): set<Block> {
    if order == [] then {} else Covered(order[..|order| - 1]) + order[|order| - 1].loop
  }

  lemma {:induction false} CoveredConcat(a: seq<LoopTree>, b: seq<LoopTree>)
    ensures Covered(a + b) == Covered(a) + Covered(b)
    decreases |b|
  {
    if b == [] {
      assert a + b == a;
    } else {
      CoveredConcat(a, b[..|b| - 1]);
      assert (a + b)[..|a + b| - 1] == a + b[..|b| - 1];
    }
  }

  /** Which instruction stands where. */
  datatype Placement = Placement(blocks: map<Block, seq<Value>>, parent: map<Value, Block>)

  /** What hoisting does not change. */
  datatype Setting = Setting(heap: Snapshot, movable: set<Value>, rank: map<Value, nat>, preds: map<Block, seq<Block>>,
                             succs: map<Block, seq<Block>>)

  /** Ranks grow along the operands of movable instructions, wherever these stand. */
  ghost predicate RanksMovable(st: Setting) {
    forall v, i {:trigger st.heap.ops[v][i]} ::
      v in st.heap.ops && v in st.movable && 0 <= i < |st.heap.ops[v]| && st.heap.ops[v][i] != null ==>
      v in st.rank && st.heap.ops[v][i] in st.rank && st.rank[st.heap.ops[v][i]] < st.rank[v]
  }

  /** The lists and the parents agree, nothing is listed twice, and every block ends with something that stays. */
  ghost predicate PlacementOk(st: Setting, pl: Placement) {
    && Housed(pl.blocks, pl.parent) && pl.parent.Keys <= st.heap.ops.Keys
    && (forall b :: b in pl.blocks ==> Distinct(pl.blocks[b]) && Ends(st, pl.blocks[b]))
  }

  predicate Ends(st: Setting, vs: seq<Value>) {
    vs != [] && vs[|vs| - 1] !in st.movable
  }

  function ViewAt(st: Setting, pl: Placement, loop: set<Block>, processed: set<Block>): View {
    View(st.heap.ops, pl.parent, loop, processed, st.movable, st.rank)
  }

  function PredsOf(preds: map<Block, seq<Block>>, b: Block): seq<Block> {
    if b in preds then preds[b] else []
  }

  /** There is one block outside that leads to the base, and it leads nowhere else. */
  predicate HasPreheader(st: Setting, t: LoopTree) {
    t.base.Some? &&
    var outside := OutsidePreds(PredsOf(st.preds, t.base.value), t.loop);
    |outside| == 1 && |SuccsOf(st.succs, outside[0])| == 1
  }

  function Preheader(st: Setting, t: LoopTree): Block
    requires HasPreheader(st, t)
  {
    OutsidePreds(PredsOf(st.preds, t.base.value), t.loop)[0]
  }

  /** Of the predecessors listed for the base exactly one lies outside the loop, and one edge leads out of it. */
  lemma HasPreheaderIff(st: Setting, t: LoopTree)
    ensures HasPreheader(st, t) <==>
              t.base.Some? && t.base.value in st.preds &&
              exists k: nat :: OnlyOutside(st.preds[t.base.value], t.loop, k) && LeadsOnce(st, st.preds[t.base.value][k])
    ensures forall k: nat :: HasPreheader(st, t) && OnlyOutside(st.preds[t.base.value], t.loop, k) ==>
              Preheader(st, t) == st.preds[t.base.value][k]
  {
    if t.base.Some? {
      OneOutside(PredsOf(st.preds, t.base.value), t.loop);
    }
  }

  predicate LeadsOnce(st: Setting, p: Block) {
    p in st.succs && |st.succs[p]| == 1
  }

  lemma ViewRanked(st: Setting, pl: Placement, loop: set<Block>, processed: set<Block>)
    requires RanksMovable(st) && PlacementOk(st, pl)
    ensures ViewAt(st, pl, loop, processed).Ranked()
  {
    hide Distinct;
  }

  /** The invariant instructions of the loop, outside the loops handled before, have moved in order. */
  ghost predicate HoistStep(st: Setting, processed: set<Block>, t: LoopTree, before: Placement, after: Placement,
                            moved: seq<Value>)
  {
    if !HasPreheader(st, t) then after == before && moved == []
    else
      var h := ViewAt(st, before, t.loop, processed);
      && h.Ranked() && Ordered(st.heap, ToSet(moved), moved)
      && (forall v :: v in moved ==> v in before.parent && IsMoved(h, v))
      && (forall v :: v in before.parent && IsMoved(h, v) ==> v in moved) && MovesExactly(h, moved)
      && Hoisted(before.blocks, before.parent, after.blocks, after.parent, Preheader(st, t), moved)
  }

  /** The loops of `order` have been handled one by one, with the placements `stages` in between. */
  ghost predicate Stages(st: Setting, processed: set<Block>, order: seq<LoopTree>, stages: seq<Placement>,
                         moves: seq<seq<Value>>)
  {
    && |stages| == |order| + 1 && |moves| == |order|
    && (forall i {:trigger order[i]} :: 0 <= i < |order| ==>
          HoistStep(st, processed + Covered(order[..i]), order[i], stages[i], stages[i + 1], moves[i]))
  }

  lemma StagesNone(st: Setting, processed: set<Block>, pl: Placement)
    ensures Stages(st, processed, [], [pl], [])
  {
  }

  lemma StagesOne(st: Setting, processed: set<Block>, t: LoopTree, before: Placement, after: Placement,
                  moved: seq<Value>)
    requires HoistStep(st, processed, t, before, after, moved)
    ensures Stages(st, processed, [t], [before, after], [moved])
  {
    hide HoistStep;
    assert processed + Covered([t][..0]) == processed;
  }

  lemma StagesConcat(st: Setting, processed: set<Block>, order: seq<LoopTree>, stages: seq<Placement>,
                     moves: seq<seq<Value>>, order': seq<LoopTree>, stages': seq<Placement>, moves': seq<seq<Value>>)
    requires Stages(st, processed, order, stages, moves)
    requires Stages(st, processed + Covered(order), order', stages', moves') && stages'[0] == stages[|order|]
    ensures Stages(st, processed, order + order', stages + stages'[1..], moves + moves')
    ensures (stages + stages'[1..])[0] == stages[0]
    ensures (stages + stages'[1..])[|order + order'|] == stages'[|order'|]
  {
    hide HoistStep, Covered;
    var o, s, m := order + order', stages + stages'[1..], moves + moves';
    forall i {:trigger o[i]} | 0 <= i < |o|
      ensures HoistStep(st, processed + Covered(o[..i]), o[i], s[i], s[i + 1], m[i])
    {
      if i < |order| {
        assert o[..i] == order[..i] && o[i] == order[i];
      } else {
        var j := i - |order|;
        assert o[..i] == order + order'[..j] && o[i] == order'[j];
        CoveredConcat(order, order'[..j]);
        assert processed + Covered(order) + Covered(order'[..j]) == processed + Covered(o[..i]);
        assert s[i] == stages'[j] && s[i + 1] == stages'[j + 1];
      }
    }
  }

  /** The loops lie in the function, and so do the predecessors of their bases. */
  predicate NodeIn(st: Setting, keys: set<Block>, t: LoopTree) {
    t.loop <= keys && (t.base.Some? ==> forall p :: p in PredsOf(st.preds, t.base.value) ==> p in keys)
  }

  predicate AllIn(st: Setting, keys: set<Block>, order: seq<LoopTree>) {
    forall t :: t in order ==> NodeIn(st, keys, t)
  }

  // ----- one step keeps what the next needs -----

  lemma {:induction false} FilterDistinct(vs: seq<Value>, gone: set<Value>)
    requires Distinct(vs)
    ensures Distinct(Filter(vs, gone))
    decreases |vs|
  {
    if vs != [] {
      var front := vs[..|vs| - 1];
      FilterDistinct(front, gone);
      FilterMember(front, gone, vs[|vs| - 1]);
    }
  }

  lemma FilterEnds(st: Setting, vs: seq<Value>, gone: set<Value>)
    requires Ends(st, vs) && gone <= st.movable
    ensures Ends(st, Filter(vs, gone))
  {
  }

  lemma StepHoused(before: Placement, after: Placement, preheader: Block, moved: seq<Value>)
    requires Housed(before.blocks, before.parent)
    requires Hoisted(before.blocks, before.parent, after.blocks, after.parent, preheader, moved)
    requires forall v :: v in moved ==> v in before.parent && before.parent[v] != preheader
    ensures Housed(after.blocks, after.parent)
  {
    hide Filter;
    forall b, v | b in after.blocks && v in after.blocks[b]
      ensures v in after.parent && after.parent[v] == b
    {
      if b != preheader {
        FilterMember(before.blocks[b], ToSet(moved), v);
      } else if v !in moved {
        assert v in before.blocks[b];
      }
    }
    forall v | v in after.parent
      ensures after.parent[v] in after.blocks && v in after.blocks[after.parent[v]]
    {
      var b := before.parent[v];
      if v !in moved {
        if b != preheader {
          FilterMember(before.blocks[b], ToSet(moved), v);
        } else {
          PreheaderHas(before.blocks[b], moved, v);
        }
      }
    }
  }

  lemma PreheaderHas(vs: seq<Value>, moved: seq<Value>, v: Value)
    requires v in vs
    ensures v in vs[..|vs| - 1] + moved + [vs[|vs| - 1]]
  {
    var k :| 0 <= k < |vs| && vs[k] == v;
    if k < |vs| - 1 {
      assert vs[..|vs| - 1][k] == v;
    }
  }

  lemma PreheaderDistinct(vs: seq<Value>, moved: seq<Value>)
    requires vs != [] && Distinct(vs) && Distinct(moved) && forall v :: v in moved ==> v !in vs
    ensures Distinct(vs[..|vs| - 1] + moved + [vs[|vs| - 1]])
  {
    var n := |vs| - 1;
    var s := vs[..n] + moved + [vs[n]];
    forall i, j | 0 <= i < j < |s|
      ensures s[i] != s[j]
    {
      if i < n && n <= j < n + |moved| {
        assert s[j] in moved && s[i] in vs;
      } else if n <= i < n + |moved| <= j {
        assert s[i] in moved && s[j] in vs;
      }
    }
  }

  lemma StepOk(st: Setting, processed: set<Block>, t: LoopTree, before: Placement, after: Placement, moved: seq<Value>)
    requires PlacementOk(st, before) && HoistStep(st, processed, t, before, after, moved)
    ensures PlacementOk(st, after) && after.blocks.Keys == before.blocks.Keys
  {
    hide Distinct, View.Ranked, Invariant, Housed, Filter, Ends;
    if HasPreheader(st, t) {
      var h, p := ViewAt(st, before, t.loop, processed), Preheader(st, t);
      OutsideAreOutside(PredsOf(st.preds, t.base.value), t.loop);
      assert p in OutsidePreds(PredsOf(st.preds, t.base.value), t.loop);
      forall v | v in moved
        ensures v in before.parent && before.parent[v] != p && v in st.movable
      {
        assert IsMoved(h, v);
        MovedIsCandidate(h, v);
      }
      StepHoused(before, after, p, moved);
      forall b | b in after.blocks
        ensures Distinct(after.blocks[b]) && Ends(st, after.blocks[b])
      {
        if b == p {
          NotThere(before, p, moved);
          PreheaderDistinct(before.blocks[p], moved);
          EndStays(st, before.blocks[p], moved);
        } else {
          FilterDistinct(before.blocks[b], ToSet(moved));
          FilterEnds(st, before.blocks[b], ToSet(moved));
        }
      }
    }
  }

  lemma EndStays(st: Setting, vs: seq<Value>, moved: seq<Value>)
    requires Ends(st, vs)
    ensures Ends(st, vs[..|vs| - 1] + moved + [vs[|vs| - 1]])
  {
  }

  lemma NotThere(pl: Placement, p: Block, moved: seq<Value>)
    requires Housed(pl.blocks, pl.parent) && p in pl.blocks
    requires forall v :: v in moved ==> v in pl.parent && pl.parent[v] != p
    ensures forall v :: v in moved ==> v !in pl.blocks[p]
  {
  }

  // ----- runs -----

  /** The code of a placement. */
  function CodeAt(g: Cfg, nm: Naming, st: Setting, pl: Placement): SsaRun.Body {
    BodyFor(nm, st.heap.ops, InOrder(pl.blocks, g.Size()))
  }

  /** Control enters each loop only by its base, whose predecessors are those of the graph. */
  ghost predicate Shaped(g: Cfg, st: Setting, t: LoopTree) {
    t.base.Some? ==>
      && LoopShape(g, t.loop, t.base.value) && t.base.value < |g.preds|
      && g.preds[t.base.value] == PredsOf(st.preds, t.base.value)
  }

  lemma StepFaithful(g: Cfg, nm: Naming, st: Setting, processed: set<Block>, t: LoopTree, before: Placement,
                     after: Placement, moved: seq<Value>)
    requires st.heap.Closed() && PlacementOk(st, before) && HoistStep(st, processed, t, before, after, moved)
    requires SsaCode(g, nm, st.heap.ops, InOrder(before.blocks, g.Size()))
    requires NoEffects(nm, st.movable) && Shaped(g, st, t)
    ensures SsaCode(g, nm, st.heap.ops, InOrder(after.blocks, g.Size()))
    ensures HoistKeepsRuns(g, nm, st.movable, CodeAt(g, nm, st, before), CodeAt(g, nm, st, after))
  {
    hide Distinct, View.Ranked, Invariant, Housed, SsaCode, NoEffects, HoistKeepsRuns, Snapshot.Closed, Ordered,
         IsMoved, Hoisted, BodyFor, LoopShape, Ends;
    if HasPreheader(st, t) {
      var h, preds := ViewAt(st, before, t.loop, processed), PredsOf(st.preds, t.base.value);
      assert OutsidePreds(preds, t.loop) == [Preheader(st, t)];
      HoistedFaithful(g, nm, h, st.heap, before.blocks, after.blocks, after.parent, t.base.value, preds, moved,
                      Preheader(st, t));
    } else {
      KeepsRunsSelf(g, nm, st.movable, CodeAt(g, nm, st, before));
    }
  }

  /** The whole walk keeps SSA form and changes no run. */
  lemma {:induction false} StagesFaithful(g: Cfg, nm: Naming, st: Setting, processed: set<Block>, order: seq<LoopTree>,
                                          stages: seq<Placement>, moves: seq<seq<Value>>, k: nat)
    requires st.heap.Closed() && Stages(st, processed, order, stages, moves) && PlacementOk(st, stages[0])
    requires SsaCode(g, nm, st.heap.ops, InOrder(stages[0].blocks, g.Size())) && NoEffects(nm, st.movable)
    requires (forall t :: t in order ==> Shaped(g, st, t)) && k <= |order|
    ensures PlacementOk(st, stages[k]) && SsaCode(g, nm, st.heap.ops, InOrder(stages[k].blocks, g.Size()))
    ensures HoistKeepsRuns(g, nm, st.movable, CodeAt(g, nm, st, stages[0]), CodeAt(g, nm, st, stages[k]))
    decreases k
  {
    hide PlacementOk, SsaCode, NoEffects, HoistKeepsRuns, Snapshot.Closed, HoistStep, CodeAt, Shaped;
    if k == 0 {
      SelfKept(g, nm, st, stages[0]);
    } else {
      StagesFaithful(g, nm, st, processed, order, stages, moves, k - 1);
      var t := order[k - 1];
      assert HoistStep(st, processed + Covered(order[..k - 1]), t, stages[k - 1], stages[k], moves[k - 1]);
      StepOk(st, processed + Covered(order[..k - 1]), t, stages[k - 1], stages[k], moves[k - 1]);
      StepFaithful(g, nm, st, processed + Covered(order[..k - 1]), t, stages[k - 1], stages[k], moves[k - 1]);
      KeepsRunsTrans(g, nm, st.movable, CodeAt(g, nm, st, stages[0]), CodeAt(g, nm, st, stages[k - 1]),
                     CodeAt(g, nm, st, stages[k]));
    }
  }

  lemma SelfKept(g: Cfg, nm: Naming, st: Setting, pl: Placement)
    ensures HoistKeepsRuns(g, nm, st.movable, CodeAt(g, nm, st, pl), CodeAt(g, nm, st, pl))
  {
    hide HoistKeepsRuns, BodyFor;
    KeepsRunsSelf(g, nm, st.movable, CodeAt(g, nm, st, pl));
  }

  /** The trees have been walked one after another, each starting with nothing handled. */
  ghost predicate WalkedAll(st: Setting, roots: seq<LoopTree>, walks: seq<seq<Placement>>, moves: seq<seq<seq<Value>>>,
                            start: Placement, now: Placement)
  {
    && |walks| == |moves| == |roots| && now == End(walks, |walks| - 1, start)
    && (forall i :: 0 <= i < |roots| ==> WalkedOne(st, roots[i], walks, moves, start, i))
  }

  ghost predicate WalkedOne(st: Setting, root: LoopTree, walks: seq<seq<Placement>>, moves: seq<seq<seq<Value>>>,
                            start: Placement, i: nat)
  {
    && i < |walks| && i < |moves| && |walks[i]| > 0 && walks[i][0] == End(walks, i - 1, start)
    && Stages(st, {}, PostOrder(root), walks[i], moves[i])
  }

  /** Where the `i`-th walk ended. */
  ghost function End(walks: seq<seq<Placement>>, i: int, start: Placement): Placement {
    if 0 <= i < |walks| && |walks[i]| > 0 then walks[i][|walks[i]| - 1] else start
  }

  lemma NothingWalked(st: Setting, start: Placement)
    ensures WalkedAll(st, [], [], [], start, start)
  {
  }

  lemma WalkedMore(st: Setting, roots: seq<LoopTree>, root: LoopTree, walks: seq<seq<Placement>>,
                   moves: seq<seq<seq<Value>>>, stages: seq<Placement>, moved: seq<seq<Value>>, start: Placement,
                   now: Placement)
    requires WalkedAll(st, roots, walks, moves, start, now) && Stages(st, {}, PostOrder(root), stages, moved)
    requires |stages| > 0 && stages[0] == now
    ensures WalkedAll(st, roots + [root], walks + [stages], moves + [moved], start, stages[|stages| - 1])
  {
    hide Stages, PostOrder;
    var r, w, m := roots + [root], walks + [stages], moves + [moved];
    assert w[|w| - 1] == stages;
    forall i | 0 <= i < |r|
      ensures WalkedOne(st, r[i], w, m, start, i)
    {
      assert End(w, i - 1, start) == End(walks, i - 1, start);
      if i < |roots| {
        assert WalkedOne(st, roots[i], walks, moves, start, i);
      }
    }
  }

  /** Given SSA form, and loops that control enters by their bases, the code is in SSA form again and no run has
      changed. */
  ghost predicate WalkFaithful(g: Cfg, nm: Naming, st: Setting, roots: seq<LoopTree>, before: Placement,
                               after: Placement)
  {
    SsaCode(g, nm, st.heap.ops, InOrder(before.blocks, g.Size())) && NoEffects(nm, st.movable) &&
    (forall r, t :: r in roots && t in PostOrder(r) ==> Shaped(g, st, t)) ==>
      SsaCode(g, nm, st.heap.ops, InOrder(after.blocks, g.Size())) &&
      HoistKeepsRuns(g, nm, st.movable, CodeAt(g, nm, st, before), CodeAt(g, nm, st, after))
  }

  lemma WalkStart(g: Cfg, nm: Naming, st: Setting, roots: seq<LoopTree>, pl: Placement)
    ensures WalkFaithful(g, nm, st, roots, pl, pl)
  {
    hide SsaCode, NoEffects, HoistKeepsRuns, CodeAt;
    SelfKept(g, nm, st, pl);
  }

  lemma WalkOn(g: Cfg, nm: Naming, st: Setting, roots: seq<LoopTree>, root: LoopTree, start: Placement,
               stages: seq<Placement>, moves: seq<seq<Value>>)
    requires st.heap.Closed() && root in roots && Stages(st, {}, PostOrder(root), stages, moves)
    requires |stages| == |PostOrder(root)| + 1 && PlacementOk(st, stages[0])
    requires WalkFaithful(g, nm, st, roots, start, stages[0])
    ensures WalkFaithful(g, nm, st, roots, start, stages[|PostOrder(root)|])
  {
    hide SsaCode, NoEffects, HoistKeepsRuns, CodeAt, PlacementOk, Stages, Shaped, Snapshot.Closed, PostOrder;
    if SsaCode(g, nm, st.heap.ops, InOrder(start.blocks, g.Size())) && NoEffects(nm, st.movable) &&
       forall r, t :: r in roots && t in PostOrder(r) ==> Shaped(g, st, t) {
      var order := PostOrder(root);
      StagesFaithful(g, nm, st, {}, order, stages, moves, |order|);
      KeepsRunsTrans(g, nm, st.movable, CodeAt(g, nm, st, start), CodeAt(g, nm, st, stages[0]),
                     CodeAt(g, nm, st, stages[|order|]));
    }
  }

  // ----- the pass -----

  class LoopHoistPass {
    const movable: set<Value>
    const preds: map<Block, seq<Block>>
    const succs: map<Block, seq<Block>>
    var blocks: map<Block, seq<Value>>
    var parent: map<Value, Block>
    /** The blocks of the loops handled so far. */
    var processed: set<Block>

    constructor (movable: set<Value>, preds: map<Block, seq<Block>>, succs: map<Block, seq<Block>>,
                 blocks: map<Block, seq<Value>>, parent: map<Value, Block>)
      ensures this.movable == movable && this.preds == preds && this.succs == succs
      ensures this.blocks == blocks && this.parent == parent && processed == {}
    {
      this.movable, this.preds, this.succs, this.blocks, this.parent := movable, preds, succs, blocks, parent;
      processed := {};
    }

    ghost function Now(): Placement
      reads this`blocks, this`parent
    {
      Placement(blocks, parent)
    }

    ghost function SettingOf(all: set<Value>, rank: map<Value, nat>): Setting
      reads all
    {
      Setting(Snap(all), movable, rank, preds, succs)
    }

    /** The outermost loops one after another, each with the loops inside it. Each loop is hoisted from, inner loops
        first, and no run changes. */
    method Run(roots: seq<LoopTree>, ghost all: set<Value>, ghost rank: map<Value, nat>, ghost g: Cfg, ghost nm: Naming)
        returns (ghost walks: seq<seq<Placement>>, ghost moves: seq<seq<seq<Value>>>)
      requires Snap(all).TwoWay() && RanksMovable(SettingOf(all, rank)) && PlacementOk(SettingOf(all, rank), Now())
      requires forall r :: r in roots ==> AllIn(SettingOf(all, rank), blocks.Keys, PostOrder(r))
      modifies this
      ensures WalkFaithful(g, nm, SettingOf(all, rank), roots, old(Now()), Now())
      ensures WalkedAll(SettingOf(all, rank), roots, walks, moves, old(Now()), Now())
    {
      hide WalkedAll, NodeIn, PlacementOk, RanksMovable, Stages, Snapshot.TwoWay, HoistStep, AllIn, Covered,
           WalkFaithful, PostOrder;
      ghost var st, keys, start := SettingOf(all, rank), blocks.Keys, Now();
      walks, moves := [], [];
      WalkStart(g, nm, st, roots, start);
      NothingWalked(st, start);
      IsClosed(Snap(all));
      for i := 0 to |roots|
        invariant blocks.Keys == keys && PlacementOk(st, Now()) && WalkFaithful(g, nm, st, roots, start, Now())
        invariant WalkedAll(st, roots[..i], walks, moves, start, Now())
      {
        ghost var before := Now();
        processed := {};
        ghost var stages, moved := HoistInvariants(roots[i], all, rank, g, nm);
        WalkOn(g, nm, st, roots, roots[i], start, stages, moved);
        WalkedMore(st, roots[..i], roots[i], walks, moves, stages, moved, start, before);
        assert roots[..i + 1] == roots[..i] + [roots[i]];
        walks, moves := walks + [stages], moves + [moved];
      }
      assert roots[..|roots|] == roots;
    }

    /** A loop, after the loops inside it. */
    method HoistInvariants(tree: LoopTree, ghost all: set<Value>, ghost rank: map<Value, nat>, ghost g: Cfg,
                           ghost nm: Naming)
        returns (ghost stages: seq<Placement>, ghost moves: seq<seq<Value>>)
      requires Snap(all).TwoWay() && RanksMovable(SettingOf(all, rank)) && PlacementOk(SettingOf(all, rank), Now())
      requires AllIn(SettingOf(all, rank), blocks.Keys, PostOrder(tree))
      modifies this
      ensures processed == old(processed) + Covered(PostOrder(tree)) && blocks.Keys == old(blocks.Keys)
      ensures PlacementOk(SettingOf(all, rank), Now())
      ensures Stages(SettingOf(all, rank), old(processed), PostOrder(tree), stages, moves)
      ensures |stages| == |PostOrder(tree)| + 1 && stages[0] == old(Now()) && stages[|PostOrder(tree)|] == Now()
      decreases tree, 1
    {
      hide PlacementOk, RanksMovable, Stages, Snapshot.TwoWay, HoistStep, AllIn, Covered;
      ghost var st, p0, keys, start := SettingOf(all, rank), processed, blocks.Keys, Now();
      stages, moves := [Now()], [];
      StagesNone(st, p0, Now());
      CoveredFew(tree);
      for i := 0 to |tree.subloops|
        invariant blocks.Keys == keys && PlacementOk(st, Now()) && processed == p0 + Covered(SubOrder(tree, i))
        invariant Stages(st, p0, SubOrder(tree, i), stages, moves)
        invariant |stages| == |SubOrder(tree, i)| + 1 && stages[0] == start && stages[|SubOrder(tree, i)|] == Now()
      {
        ChildIn(st, keys, tree, i);
        ghost var stages', moves' := HoistInvariants(tree.subloops[i], all, rank, g, nm);
        Joined(st, p0, SubOrder(tree, i), stages, moves, PostOrder(tree.subloops[i]), stages', moves');
        stages, moves := stages + stages'[1..], moves + moves';
      }
      ChildIn(st, keys, tree, |tree.subloops|);
      ghost var before := Now();
      ghost var moved := HoistOne(tree, all, rank, g, nm);
      StagesOne(st, processed, tree, before, Now(), moved);
      Joined(st, p0, SubOrder(tree, |tree.subloops|), stages, moves, [tree], [before, Now()], [moved]);
      stages, moves := stages + [before, Now()][1..], moves + [moved];
      processed := processed + tree.loop;
    }

    method HoistOne(tree: LoopTree, ghost all: set<Value>, ghost rank: map<Value, nat>, ghost g: Cfg, ghost nm: Naming)
        returns (ghost moved: seq<Value>)
      requires Snap(all).TwoWay() && RanksMovable(SettingOf(all, rank)) && PlacementOk(SettingOf(all, rank), Now())
      requires NodeIn(SettingOf(all, rank), blocks.Keys, tree)
      modifies this`blocks, this`parent
      ensures HoistStep(SettingOf(all, rank), processed, tree, old(Now()), Now(), moved)
      ensures PlacementOk(SettingOf(all, rank), Now()) && blocks.Keys == old(blocks.Keys)
      decreases tree, 0
    {
      hide RanksMovable, PlacementOk, Distinct, Snapshot.TwoWay, Hoisted, Ordered, IsMoved, HoistFaithful, View.Ranked,
           LoopHoister.CacheSound, LoopHoister.Placed, OutsidePreds;
      ghost var st, before := SettingOf(all, rank), Now();
      moved := [];
      if tree.base.Some? {
        var hoister := new LoopHoister(tree.loop, processed, movable, blocks, parent);
        ViewRanked(st, before, tree.loop, processed);
        ReadyToHoist(st, before, hoister);
        EmptyCache(hoister, hoister.ViewOf(all, rank));
        var header := tree.base.value;
        moved := hoister.HoistFromCurrentLoop(PredsOf(preds, header), succs, all, rank, g, nm, header);
        blocks, parent := hoister.blocks, hoister.parent;
      }
      StepOk(st, processed, tree, before, Now(), moved);
    }
  }

  lemma CoveredFew(t: LoopTree)
    ensures Covered([]) == {} && Covered([t]) == t.loop
  {
    assert [t][..0] == [];
  }

  lemma EmptyCache(hoister: LoopHoister, h: View)
    requires h.Ranked() && hoister.cache == map[]
    ensures hoister.CacheSound(h)
  {
    hide View.Ranked, Invariant;
  }

  lemma ReadyToHoist(st: Setting, pl: Placement, hoister: LoopHoister)
    requires PlacementOk(st, pl) && hoister.blocks == pl.blocks && hoister.parent == pl.parent
    ensures hoister.Placed() && forall b :: b in pl.blocks ==> pl.blocks[b] != []
  {
    hide Distinct, Housed;
  }

  lemma {:induction false} SubOrderIn(tree: LoopTree, k: nat, n: nat, t: LoopTree)
    requires k <= n <= |tree.subloops| && t in SubOrder(tree, k)
    ensures t in SubOrder(tree, n)
  {
    if k < n {
      SubOrderIn(tree, k, n - 1, t);
    }
  }

  lemma ChildIn(st: Setting, keys: set<Block>, tree: LoopTree, i: nat)
    requires AllIn(st, keys, PostOrder(tree)) && i <= |tree.subloops|
    ensures NodeIn(st, keys, tree) && (i < |tree.subloops| ==> AllIn(st, keys, PostOrder(tree.subloops[i])))
  {
    hide NodeIn;
    assert tree in PostOrder(tree);
    if i < |tree.subloops| {
      forall t | t in PostOrder(tree.subloops[i])
        ensures t in PostOrder(tree)
      {
        assert t in SubOrder(tree, i + 1);
        SubOrderIn(tree, i + 1, |tree.subloops|, t);
      }
    }
  }

  lemma Joined(st: Setting, processed: set<Block>, order: seq<LoopTree>, stages: seq<Placement>, moves: seq<seq<Value>>,
               order': seq<LoopTree>, stages': seq<Placement>, moves': seq<seq<Value>>)
    requires Stages(st, processed, order, stages, moves) && |stages| == |order| + 1
    requires Stages(st, processed + Covered(order), order', stages', moves')
    requires |stages'| > 0 && stages'[0] == stages[|order|]
    ensures |stages'| == |order'| + 1 && |stages + stages'[1..]| == |order + order'| + 1
    ensures Stages(st, processed, order + order', stages + stages'[1..], moves + moves')
    ensures (stages + stages'[1..])[0] == stages[0]
    ensures (stages + stages'[1..])[|order + order'|] == stages'[|order'|]
    ensures Covered(order + order') == Covered(order) + Covered(order')
  {
    hide HoistStep, Covered;
    StagesConcat(st, processed, order, stages, moves, order', stages', moves');
    CoveredConcat(order, order');
  }
}
