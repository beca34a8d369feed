/** Hoisting: what is loop invariant, in which order it moves to the preheader, and why it has the same value there. */
module LoopInvHoist {
  import opened Graphs
  import opened Basics
  import opened UseDef
  import opened TopologicalOrders
  import opened HeapCode
  import opened HoistedHeap

  /** What hoisting from one loop looks at. Values without a parent are not instructions. `rank` grows along the
      operands of the movable instructions, which is what dominance gives for instructions that are not phis. */
  datatype View = View(ops: map<Value, seq<Value?>>, parent: map<Value, Block>, loop: set<Block>, processed: set<Block>,
                       movable: set<Value>, rank: map<Value, nat>) {

    predicate InLoop(v: Value) {
      v in parent && parent[v] in loop
    }

    /** An instruction of the loop that may move if its operands are invariant. */
    predicate Candidate(v: Value) {
      InLoop(v) && parent[v] !in processed && v in movable
    }

    ghost predicate Ranked() {
      && parent.Keys <= ops.Keys
      && (forall v, i {:trigger ops[v][i]} :: v in ops && Candidate(v) && 0 <= i < |ops[v]| && ops[v][i] != null ==>
            v in rank && ops[v][i] in rank && rank[ops[v][i]] < rank[v])
    }

    function Rank(v: Value): nat {
      if v in rank then rank[v] else 0
    }
  }

  /** Nothing assigned in the loop goes into the value. */
  ghost predicate Invariant(h: View, v: Value)
    requires h.Ranked()
    decreases h.Rank(v)
  {
    !h.InLoop(v) ||
    (h.Candidate(v) && forall i {:trigger h.ops[v][i]} :: 0 <= i < |h.ops[v]| && h.ops[v][i] != null ==>
       Invariant(h, h.ops[v][i]))
  }

  ghost predicate InvariantSlot(h: View, x: Value?)
    requires h.Ranked()
  {
    x == null || Invariant(h, x)
  }

  function OperandsOf(h: View, v: Value): seq<Value?> {
    if v in h.ops then h.ops[v] else []
  }

  /** The first `k` operands of `v` are invariant. */
  ghost predicate SlotsInvariant(h: View, v: Value, k: nat)
    requires h.Ranked()
  {
    forall j: nat {:trigger InvariantSlot(h, OperandsOf(h, v)[j])} :: j < k && j < |OperandsOf(h, v)| ==>
      InvariantSlot(h, OperandsOf(h, v)[j])
  }

  lemma InvariantOrNot(h: View, v: Value)
    requires h.Ranked()
    ensures !h.InLoop(v) ==> Invariant(h, v)
    ensures h.InLoop(v) && !h.Candidate(v) ==> !Invariant(h, v)
    ensures SlotsInvariant(h, v, 0)
  {
  }

  /** One operand of a candidate: it has a smaller rank, and decides whether the next slot is invariant too. */
  lemma OneSlot(h: View, v: Value, i: nat)
    requires h.Ranked() && h.Candidate(v) && i < |OperandsOf(h, v)| && SlotsInvariant(h, v, i)
    ensures var o := OperandsOf(h, v)[i];
            && (o != null ==> h.Rank(o) < h.Rank(v))
            && (if o == null || Invariant(h, o) then SlotsInvariant(h, v, i + 1) else !Invariant(h, v))
  {
    var o := OperandsOf(h, v)[i];
    assert o == h.ops[v][i];
    if o == null || Invariant(h, o) {
      forall j: nat | j < i + 1 && j < |OperandsOf(h, v)|
        ensures InvariantSlot(h, OperandsOf(h, v)[j])
      {
      }
    }
  }

  lemma AllSlots(h: View, v: Value)
    requires h.Ranked() && h.Candidate(v)
    ensures SlotsInvariant(h, v, |OperandsOf(h, v)|) ==> Invariant(h, v)
  {
    if SlotsInvariant(h, v, |OperandsOf(h, v)|) {
      forall i | 0 <= i < |h.ops[v]| && h.ops[v][i] != null
        ensures Invariant(h, h.ops[v][i])
      {
        assert InvariantSlot(h, OperandsOf(h, v)[i]);
      }
    }
  }

  lemma ParentsKnown(h: View)
    requires h.Ranked()
    ensures h.parent.Keys <= h.ops.Keys
  {
  }

  /** The lists and the parents agree. */
  ghost predicate Housed(blocks: map<Block, seq<Value>>, parent: map<Value, Block>) {
    && (forall b, v :: b in blocks && v in blocks[b] ==> v in parent && parent[v] == b)
    && (forall v :: v in parent ==> parent[v] in blocks && v in blocks[parent[v]])
  }

  class LoopHoister {
    const loop: set<Block>
    const processed: set<Block>
    const movable: set<Value>
    var blocks: map<Block, seq<Value>>
    var parent: map<Value, Block>
    var cache: map<Value, bool>

    constructor (loop: set<Block>, processed: set<Block>, movable: set<Value>, blocks: map<Block, seq<Value>>,
                 parent: map<Value, Block>)
      ensures this.loop == loop && this.processed == processed && this.movable == movable
      ensures this.blocks == blocks && this.parent == parent && cache == map[]
    {
      this.loop, this.processed, this.movable, this.blocks, this.parent := loop, processed, movable, blocks, parent;
      cache := map[];
    }

    ghost function ViewOf(all: set<Value>, rank: map<Value, nat>): View
      reads this`parent, all
    {
      View(Snap(all).ops, parent, loop, processed, movable, rank)
    }

    ghost predicate CacheSound(h: View)
      requires h.Ranked()
      reads this`cache
    {
      forall v :: v in cache ==> cache[v] == Invariant(h, v)
    }

    method IsLoopInvariant(value: Value, ghost all: set<Value>, ghost rank: map<Value, nat>) returns (invariant': bool)
      requires ViewOf(all, rank).Ranked() && CacheSound(ViewOf(all, rank))
      modifies this`cache
      ensures CacheSound(ViewOf(all, rank)) && invariant' == Invariant(ViewOf(all, rank), value)
      decreases ViewOf(all, rank).Rank(value)
    {
      hide Invariant, InvariantSlot, View.Ranked;
      if value in cache {
        return cache[value];
      }
      ghost var h := ViewOf(all, rank);
      InvariantOrNot(h, value);
      if value !in parent || parent[value] !in loop {
        invariant' := true;
      } else if parent[value] in processed || value !in movable {
        invariant' := false;
      } else {
        assert value.operands == OperandsOf(h, value) by {
          ParentsKnown(h);
        }
        invariant' := true;
        var i := 0;
        while i < |value.operands| && invariant'
          invariant i <= |value.operands| && CacheSound(h)
          invariant if invariant' then SlotsInvariant(h, value, i) else !Invariant(h, value)
        {
          var operand := value.operands[i];
          OneSlot(h, value, i);
          if operand != null {
            invariant' := IsLoopInvariant(operand, all, rank);
          }
          i := i + 1;
        }
        AllSlots(h, value);
      }
      cache := cache[value := invariant'];
    }

    /** The block lists and the parents agree, and no instruction is listed twice. */
    ghost predicate Placed()
      reads this`blocks, this`parent
    {
      (forall b :: b in blocks ==> Distinct(blocks[b])) && Housed(blocks, parent)
    }

    /** The invariant instructions of the loop, outside the inner loops that have been handled. */
    method CollectLoopInvariantInstructions(ghost all: set<Value>, ghost rank: map<Value, nat>)
        returns (instrs: seq<Value>)
      requires ViewOf(all, rank).Ranked() && CacheSound(ViewOf(all, rank)) && Placed() && loop <= blocks.Keys
      modifies this`cache
      ensures Distinct(instrs)
      ensures forall v :: v in instrs <==> v in parent && IsMoved(ViewOf(all, rank), v)
    {
      hide Distinct, View.Ranked, Invariant;
      ghost var h := ViewOf(all, rank);
      instrs := [];
      NothingTwice();
      var todo := loop;
      while todo != {}
        invariant todo <= loop && CacheSound(h) && Distinct(instrs)
        invariant forall v :: v in instrs <==> v in parent && parent[v] in loop - todo && IsMoved(h, v)
        decreases todo
      {
        var block :| block in todo;
        if block !in processed {
          instrs := CollectBlock(block, instrs, all, rank);
        }
        assert forall v :: v in parent && IsMoved(h, v) ==> parent[v] !in processed;
        todo := todo - {block};
      }
    }

    method CollectBlock(block: Block, before: seq<Value>, ghost all: set<Value>, ghost rank: map<Value, nat>)
        returns (instrs: seq<Value>)
      requires ViewOf(all, rank).Ranked() && CacheSound(ViewOf(all, rank)) && Placed() && block in blocks
      requires block in loop && block !in processed && Distinct(before)
      requires forall v :: v in before ==> v in parent && parent[v] != block
      modifies this`cache
      ensures CacheSound(ViewOf(all, rank)) && Distinct(instrs)
      ensures forall v :: v in instrs <==> v in before || (v in blocks[block] && IsMoved(ViewOf(all, rank), v))
    {
      hide Distinct, View.Ranked, Invariant;
      ghost var h := ViewOf(all, rank);
      instrs := before;
      for i := 0 to |blocks[block]|
        invariant CacheSound(h) && Distinct(instrs)
        invariant forall v :: v in instrs <==> v in before || (v in blocks[block][..i] && IsMoved(h, v))
      {
        var inst := blocks[block][i];
        assert blocks[block][..i + 1] == blocks[block][..i] + [inst];
        NotInFront(blocks[block], i);
        var invariant' := IsLoopInvariant(inst, all, rank);
        assert h.InLoop(inst);
        CandidateOf(h, inst);
        if invariant' {
          StillDistinct(instrs, inst);
          instrs := instrs + [inst];
        }
      }
      assert blocks[block][..|blocks[block]|] == blocks[block];
    }

    /** Moves the invariant instructions, in order, in front of the terminator of the only block that control enters
        the loop from, provided that block leads nowhere else. */
    method HoistFromCurrentLoop(preds: seq<Block>, succs: map<Block, seq<Block>>, ghost all: set<Value>,
                                ghost rank: map<Value, nat>, ghost g: Cfg, ghost nm: Naming, ghost header: Block)
        returns (moved: seq<Value>)
      requires Snap(all).TwoWay() && ViewOf(all, rank).Ranked() && CacheSound(ViewOf(all, rank))
      requires Placed() && loop <= blocks.Keys
      requires forall p :: p in preds ==> p in blocks && blocks[p] != []
      modifies this
      ensures var outside := OutsidePreds(preds, loop);
              if |outside| != 1 || |SuccsOf(succs, outside[0])| != 1 then
                moved == [] && blocks == old(blocks) && parent == old(parent)
              else
                && Ordered(Snap(all), ToSet(moved), moved)
                && (forall v :: v in moved <==> v in old(parent) && IsMoved(old(ViewOf(all, rank)), v))
                && MovesExactly(old(ViewOf(all, rank)), moved)
                && Hoisted(old(blocks), old(parent), blocks, parent, outside[0], moved)
                && HoistFaithful(g, nm, Snap(all).ops, old(blocks), blocks, loop, movable, header, preds)
    {
      hide View.Ranked, Distinct, Invariant, Ordered, Snapshot.TwoWay, Snapshot.Closed, CacheSound, HoistFaithful,
           Hoisted, MovesExactly, IsMoved;
      moved := [];
      var outside := FindOutsidePreds(preds);
      OutsideAreOutside(preds, loop);
      if |outside| != 1 || |SuccsOf(succs, outside[0])| != 1 {
        return;
      }
      ghost var h := ViewOf(all, rank);
      var instrs := CollectLoopInvariantInstructions(all, rank);
      ParentsKnown(h);
      var order := ComputeTopologicalOrder(instrs, all);
      AlwaysOrdered(h, Snap(all), instrs, order);
      SameMembers(Snap(all), instrs, order.value);
      moved := order.value;
      MovedExactly(h, moved);
      MovedInLoop(h, moved);
      MoveAll(moved, outside[0]);
      IsClosed(Snap(all));
      HoistedFaithful(g, nm, h, Snap(all), old(blocks), blocks, parent, header, preds, moved, outside[0]);
    }

    method FindOutsidePreds(preds: seq<Block>) returns (outside: seq<Block>)
      ensures outside == OutsidePreds(preds, loop)
    {
      outside := [];
      for i := 0 to |preds|
        invariant outside == OutsidePreds(preds[..i], loop)
      {
        assert preds[..i + 1][..i] == preds[..i];
        if preds[i] !in loop {
          outside := outside + [preds[i]];
        }
      }
      assert preds[..|preds|] == preds;
    }

    method MoveAll(moved: seq<Value>, preheader: Block)
      requires preheader in blocks && blocks[preheader] != [] && preheader !in loop
      requires Distinct(moved) && forall v :: v in moved ==> v in parent && parent[v] in loop && parent[v] in blocks
      requires forall b, v :: b in blocks && v in blocks[b] ==> v in parent && parent[v] == b
      modifies this`blocks, this`parent
      ensures Hoisted(old(blocks), old(parent), blocks, parent, preheader, moved)
    {
      hide Distinct, Moving, Filter, Hoisted;
      ghost var b0, p0 := blocks, parent;
      var terminator := blocks[preheader][|blocks[preheader]| - 1];
      ghost var front := blocks[preheader][..|blocks[preheader]| - 1];
      blocks := blocks[preheader := blocks[preheader][..|blocks[preheader]| - 1]];
      MovingStart(b0, p0, preheader);
      for k := 0 to |moved|
        invariant Moving(b0, p0, blocks, parent, preheader, front, moved[..k])
      {
        var instr := moved[k];
        NotInFront(moved, k);
        assert moved[..k + 1] == moved[..k] + [instr];
        assert instr in moved;
        MovingNext(b0, p0, blocks, parent, preheader, front, moved[..k], instr);
        var source := parent[instr];
        blocks := blocks[source := Filter(blocks[source], {instr})];
        parent := parent[instr := preheader];
        blocks := blocks[preheader := blocks[preheader] + [instr]];
      }
      assert moved[..|moved|] == moved;
      MovingEnd(b0, p0, blocks, parent, preheader, moved);
      blocks := blocks[preheader := blocks[preheader] + [terminator]];
    }
  }

  function SuccsOf(succs: map<Block, seq<Block>>, b: Block): seq<Block> {
    if b in succs then succs[b] else []
  }

  function OutsidePreds(preds: seq<Block>, loop: set<Block>): seq<Block> {
    if preds == [] then []
    else
      var front := OutsidePreds(preds[..|preds| - 1], loop);
      if preds[|preds| - 1] in loop then front else front + [preds[|preds| - 1]]
  }

  lemma {:induction false} OutsideAreOutside(preds: seq<Block>, loop: set<Block>)
    ensures forall p :: p in OutsidePreds(preds, loop) <==> p in preds && p !in loop
    decreases |preds|
  {
    if preds != [] {
      OutsideAreOutside(preds[..|preds| - 1], loop);
      assert preds == preds[..|preds| - 1] + [preds[|preds| - 1]];
    }
  }

  /** Position `k` is the only one that lists a block outside the loop. */
  predicate OnlyOutside(preds: seq<Block>, loop: set<Block>, k: nat) {
    k < |preds| && preds[k] !in loop && forall j :: 0 <= j < |preds| && j != k ==> preds[j] in loop
  }

  lemma {:induction false} OneOutside(preds: seq<Block>, loop: set<Block>)
    ensures |OutsidePreds(preds, loop)| == 0 <==> forall j :: 0 <= j < |preds| ==> preds[j] in loop
    ensures |OutsidePreds(preds, loop)| == 1 <==> exists k: nat :: OnlyOutside(preds, loop, k)
    ensures forall k: nat :: OnlyOutside(preds, loop, k) ==> OutsidePreds(preds, loop) == [preds[k]]
    decreases |preds|
  {
    if preds != [] {
      var front, last := preds[..|preds| - 1], |preds| - 1;
      OneOutside(front, loop);
      assert forall j :: 0 <= j < last ==> preds[j] == front[j];
      forall k: nat | k < last
        ensures OnlyOutside(preds, loop, k) <==> OnlyOutside(front, loop, k) && preds[last] in loop
      {
        if OnlyOutside(front, loop, k) && preds[last] in loop {
          assert forall j :: 0 <= j < |preds| && j != k ==> preds[j] in loop;
        }
      }
      if preds[last] !in loop {
        if |OutsidePreds(front, loop)| == 0 {
          assert OnlyOutside(preds, loop, last);
        }
      } else if k: nat :| OnlyOutside(front, loop, k) {
        assert OnlyOutside(preds, loop, k);
      }
    }
  }

  lemma {:induction false} FilterSnoc(s: seq<Value>, x: Value, gone: set<Value>)
    ensures Filter(s + [x], gone) == Filter(s, gone) + if x in gone then [] else [x]
  {
    assert (s + [x])[..|s|] == s;
  }

  lemma {:induction false} FilterTwice(s: seq<Value>, gone: set<Value>, more: set<Value>)
    ensures Filter(Filter(s, gone), more) == Filter(s, gone + more)
    decreases |s|
  {
    if s != [] {
      var front, last := s[..|s| - 1], s[|s| - 1];
      FilterTwice(front, gone, more);
      if last in gone {
        assert Filter(s, gone) == Filter(front, gone);
      } else {
        FilterSnoc(Filter(front, gone), last, more);
      }
    }
  }

  lemma {:induction false} FilterNothing(s: seq<Value>)
    ensures Filter(s, {}) == s
    decreases |s|
  {
    if s != [] {
      FilterNothing(s[..|s| - 1]);
    }
  }

  /** Every other block has lost what moved; the preheader has it in front of its terminator. */
  ghost predicate Hoisted(blocks: map<Block, seq<Value>>, parent: map<Value, Block>, blocks': map<Block, seq<Value>>,
                          parent': map<Value, Block>, preheader: Block, moved: seq<Value>)
  {
    && preheader in blocks && blocks[preheader] != [] && blocks'.Keys == blocks.Keys
    && (forall b :: b in blocks && b != preheader ==> blocks'[b] == Filter(blocks[b], ToSet(moved)))
    && (var n := |blocks[preheader]| - 1;
        blocks'[preheader] == blocks[preheader][..n] + moved + [blocks[preheader][n]])
    && (forall v :: v in parent ==> v in parent' && parent'[v] == if v in moved then preheader else parent[v])
    && parent'.Keys == parent.Keys
  }

  /** The same while the terminator is taken out and only some instructions have moved. */
  ghost predicate Moving(blocks: map<Block, seq<Value>>, parent: map<Value, Block>, blocks': map<Block, seq<Value>>,
                         parent': map<Value, Block>, preheader: Block, front: seq<Value>, moved: seq<Value>)
  {
    && preheader in blocks && blocks'.Keys == blocks.Keys && parent'.Keys == parent.Keys
    && (forall b :: b in blocks && b != preheader ==> blocks'[b] == Filter(blocks[b], ToSet(moved)))
    && blocks'[preheader] == front + moved
    && (forall v :: v in parent ==> parent'[v] == if v in moved then preheader else parent[v])
  }

  lemma MovingStart(blocks: map<Block, seq<Value>>, parent: map<Value, Block>, preheader: Block)
    requires preheader in blocks && blocks[preheader] != []
    ensures var front := blocks[preheader][..|blocks[preheader]| - 1];
            Moving(blocks, parent, blocks[preheader := front], parent, preheader, front, [])
  {
    var front := blocks[preheader][..|blocks[preheader]| - 1];
    assert front + [] == front;
    forall b | b in blocks && b != preheader
      ensures blocks[b] == Filter(blocks[b], ToSet([]))
    {
      FilterNothing(blocks[b]);
      assert ToSet([]) == {};
    }
  }

  lemma MovingNext(blocks: map<Block, seq<Value>>, parent: map<Value, Block>, now: map<Block, seq<Value>>,
                   nowParent: map<Value, Block>, preheader: Block, front: seq<Value>, moved: seq<Value>, v: Value)
    requires Moving(blocks, parent, now, nowParent, preheader, front, moved) && v !in moved
    requires v in parent && parent[v] in blocks && parent[v] != preheader
    requires forall b, x :: b in blocks && x in blocks[b] && x == v ==> b == parent[v]
    ensures v in nowParent && nowParent[v] in now && nowParent[v] != preheader && preheader in now
    ensures var now' := now[nowParent[v] := Filter(now[nowParent[v]], {v})];
            && preheader in now'
            && Moving(blocks, parent, now'[preheader := now'[preheader] + [v]], nowParent[v := preheader], preheader, front,
                      moved + [v])
  {
    hide Filter;
    assert ToSet(moved + [v]) == ToSet(moved) + {v};
    assert front + moved + [v] == front + (moved + [v]);
    forall b | b in blocks && b != preheader
      ensures Filter(blocks[b], ToSet(moved) + {v}) == if b == parent[v] then Filter(now[b], {v}) else now[b]
    {
      MoreFiltered(blocks, parent, b, ToSet(moved), v);
    }
  }

  lemma MoreFiltered(blocks: map<Block, seq<Value>>, parent: map<Value, Block>, b: Block, gone: set<Value>, v: Value)
    requires b in blocks && v in parent && (v in blocks[b] ==> b == parent[v])
    ensures Filter(blocks[b], gone + {v}) ==
            if b == parent[v] then Filter(Filter(blocks[b], gone), {v}) else Filter(blocks[b], gone)
  {
    if b == parent[v] {
      FilterTwice(blocks[b], gone, {v});
    } else {
      FilterAbsent(blocks[b], gone, v);
    }
  }

  lemma MovingEnd(blocks: map<Block, seq<Value>>, parent: map<Value, Block>, now: map<Block, seq<Value>>,
                  nowParent: map<Value, Block>, preheader: Block, moved: seq<Value>)
    requires preheader in blocks && blocks[preheader] != []
    requires Moving(blocks, parent, now, nowParent, preheader, blocks[preheader][..|blocks[preheader]| - 1], moved)
    ensures preheader in now
    ensures Hoisted(blocks, parent, now[preheader := now[preheader] + [blocks[preheader][|blocks[preheader]| - 1]]],
                    nowParent, preheader, moved)
  {
  }

  lemma {:induction false} FilterAbsent(s: seq<Value>, gone: set<Value>, v: Value)
    requires v !in s
    ensures Filter(s, gone + {v}) == Filter(s, gone)
    decreases |s|
  {
    if s != [] {
      FilterAbsent(s[..|s| - 1], gone, v);
    }
  }

  /** The search for an order succeeds. */
  lemma AlwaysOrdered(h: View, t: Snapshot, instrs: seq<Value>, order: Option<seq<Value>>)
    requires h.Ranked() && h.ops == t.ops && forall v :: v in instrs <==> v in h.parent && IsMoved(h, v)
    requires order.None? ==> exists c :: c <= ToSet(instrs) && Cyclic(t, c)
    ensures order.Some?
  {
    hide View.Ranked, Invariant, View.Candidate, SomeIn, IsMoved;
    if order.None? {
      var c :| c <= ToSet(instrs) && Cyclic(t, c);
      var v :| v in c;
      forall u | u in c
        ensures h.Candidate(u)
      {
        assert u in ToSet(instrs);
        MovedIsCandidate(h, u);
      }
      NoCircle(h, t, c, v);
    }
  }

  lemma MovedIsCandidate(h: View, v: Value)
    requires h.Ranked() && IsMoved(h, v)
    ensures h.Candidate(v)
  {
    hide View.Ranked, Invariant;
  }

  lemma SameMembers(t: Snapshot, instrs: seq<Value>, order: seq<Value>)
    requires Ordered(t, ToSet(instrs), order)
    ensures Ordered(t, ToSet(order), order) && Distinct(order) && forall v :: v in order <==> v in instrs
  {
    hide Distinct, OperandsIn;
    assert ToSet(order) == ToSet(instrs);
    forall v
      ensures v in order <==> v in instrs
    {
      assert v in ToSet(order) <==> v in ToSet(instrs);
    }
  }

  /** What moves: the candidates that are invariant. */
  ghost predicate IsMoved(h: View, v: Value)
    requires h.Ranked()
  {
    h.Candidate(v) && Invariant(h, v)
  }

  lemma CandidateOf(h: View, v: Value)
    requires h.Ranked() && h.InLoop(v)
    ensures Invariant(h, v) ==> h.Candidate(v)
  {
  }

  lemma NothingTwice()
    ensures Distinct([])
  {
  }

  /** The operands of an instruction that moves lie outside the loop or move too. */
  lemma OperandsMove(h: View, v: Value, i: nat)
    requires h.Ranked() && IsMoved(h, v) && i < |h.ops[v]| && h.ops[v][i] != null
    ensures !h.InLoop(h.ops[v][i]) || IsMoved(h, h.ops[v][i])
  {
    assert Invariant(h, h.ops[v][i]);
  }

  /** An instruction moves exactly if it stands in the loop but in no loop handled before, may be moved, and each of its
      operands is no instruction of the loop or moves too. */
  ghost predicate MovesExactly(h: View, moved: seq<Value>) {
    forall v :: v in h.parent ==>
      (v in moved <==> h.parent[v] in h.loop && h.parent[v] !in h.processed && v in h.movable && OperandsFree(h, v, moved))
  }

  ghost predicate OperandsFree(h: View, v: Value, moved: seq<Value>) {
    v in h.ops && forall i {:trigger h.ops[v][i]} :: 0 <= i < |h.ops[v]| && h.ops[v][i] != null ==>
      h.ops[v][i] !in h.parent || h.parent[h.ops[v][i]] !in h.loop || h.ops[v][i] in moved
  }

  lemma MovedExactly(h: View, moved: seq<Value>)
    requires h.Ranked() && forall v :: v in moved <==> v in h.parent && IsMoved(h, v)
    ensures MovesExactly(h, moved)
  {
    ParentsKnown(h);
    hide View.Ranked, Invariant;
    forall v | v in h.parent
      ensures v in moved <==>
              h.parent[v] in h.loop && h.parent[v] !in h.processed && v in h.movable && OperandsFree(h, v, moved)
    {
      if v in moved {
        MovedIsCandidate(h, v);
        forall i {:trigger h.ops[v][i]} | 0 <= i < |h.ops[v]| && h.ops[v][i] != null
          ensures h.ops[v][i] !in h.parent || h.parent[h.ops[v][i]] !in h.loop || h.ops[v][i] in moved
        {
          OperandsMove(h, v, i);
        }
      } else if h.parent[v] in h.loop && h.parent[v] !in h.processed && v in h.movable && OperandsFree(h, v, moved) {
        FreeIsMoved(h, v, moved);
      }
    }
  }

  lemma MovedInLoop(h: View, moved: seq<Value>)
    requires h.Ranked() && forall v :: v in moved ==> IsMoved(h, v)
    ensures forall v :: v in moved ==> h.InLoop(v)
  {
    hide View.Ranked, Invariant;
  }

  lemma FreeIsMoved(h: View, v: Value, moved: seq<Value>)
    requires h.Ranked() && (forall u :: u in moved ==> IsMoved(h, u)) && v in h.parent
    requires h.parent[v] in h.loop && h.parent[v] !in h.processed && v in h.movable && OperandsFree(h, v, moved)
    ensures IsMoved(h, v)
  {
    forall i {:trigger h.ops[v][i]} | 0 <= i < |h.ops[v]| && h.ops[v][i] != null
      ensures Invariant(h, h.ops[v][i])
    {
      if h.ops[v][i] in moved {
        assert IsMoved(h, h.ops[v][i]);
      }
    }
  }

  /** Movable instructions do not go in circles, so an order always exists. */
  lemma {:induction false} NoCircle(h: View, t: Snapshot, c: set<Value>, v: Value)
    requires h.Ranked() && h.ops == t.ops && (forall u :: u in c ==> h.Candidate(u)) && v in c
    ensures !Cyclic(t, c)
    decreases h.Rank(v)
  {
    if Cyclic(t, c) {
      assert SomeIn(t.ops[v], c);
      var i :| 0 <= i < |t.ops[v]| && t.ops[v][i] != null && t.ops[v][i] in c;
      assert h.ops[v][i] == t.ops[v][i];
      NoCircle(h, t, c, h.ops[v][i]);
    }
  }

  // ----- runs -----

  lemma MemberMoves(h: View, s: set<Value>, order: seq<Value>, k: nat)
    requires h.Ranked() && k < |order| && ToSet(order) == s && forall u :: u in s <==> u in h.parent && IsMoved(h, u)
    ensures IsMoved(h, order[k]) && h.InLoop(order[k])
  {
    hide Invariant, View.Ranked;
    assert order[k] in ToSet(order);
  }

  lemma OperandBefore(h: View, t: Snapshot, s: set<Value>, order: seq<Value>, k: nat, i: nat)
    requires h.Ranked() && h.ops == t.ops && t.Closed() && Ordered(t, s, order) && k < |order|
    requires forall u :: u in s <==> u in h.parent && IsMoved(h, u)
    requires order[k] in h.ops && i < |h.ops[order[k]]| && h.ops[order[k]][i] != null
    ensures var o := h.ops[order[k]][i]; o in h.ops && (o in order[..k] || !h.InLoop(o))
  {
    hide Distinct, Invariant, View.Ranked;
    MemberMoves(h, s, order, k);
    OperandsMove(h, order[k], i);
    assert OperandsIn(t.ops[order[k]], s, order[..k]);
  }

  /** The ordered invariant instructions, as moves on the block lists. */
  lemma OrderMoves(h: View, t: Snapshot, blocks: map<Block, seq<Value>>, size: nat, moved: seq<Value>, preheader: Block)
    requires h.Ranked() && h.ops == t.ops && t.Closed() && Ordered(t, ToSet(moved), moved) && Housed(blocks, h.parent)
    requires forall v :: v in moved <==> v in h.parent && IsMoved(h, v)
    requires preheader in blocks && preheader < size && blocks[preheader] != [] && preheader !in h.loop
    requires forall c :: c in h.loop ==> c < size
    ensures MovesTo(t.ops, InOrder(blocks, size), h.loop, h.movable, moved, preheader)
  {
    hide View.Ranked, Invariant, Ordered, Moves, IsMoved, Housed;
    forall n | 0 <= n < |moved|
      ensures Moves(t.ops, InOrder(blocks, size), h.loop, h.movable, moved, n)
    {
      OneMoves(h, t, blocks, size, moved, n);
    }
  }

  lemma OneMoves(h: View, t: Snapshot, blocks: map<Block, seq<Value>>, size: nat, moved: seq<Value>, n: nat)
    requires h.Ranked() && h.ops == t.ops && t.Closed() && Ordered(t, ToSet(moved), moved) && Housed(blocks, h.parent)
    requires (forall v :: v in moved <==> v in h.parent && IsMoved(h, v)) && n < |moved|
    requires forall c :: c in h.loop ==> c < size
    ensures Moves(t.ops, InOrder(blocks, size), h.loop, h.movable, moved, n)
  {
    hide View.Ranked, Invariant, OperandsIn, Snapshot.Closed;
    var v, list := moved[n], InOrder(blocks, size);
    assert v in moved;
    assert h.InLoop(v) && v in list[h.parent[v]];
    forall i: nat | i < |t.ops[v]|
      ensures SlotMoves(list, h.loop, moved, n, t.ops[v][i])
    {
      var o := t.ops[v][i];
      if o != null {
        OperandBefore(h, t, ToSet(moved), moved, n, i);
        if !h.InLoop(o) {
          StaysOut(h, blocks, size, o);
        }
      }
    }
  }

  lemma StaysOut(h: View, blocks: map<Block, seq<Value>>, size: nat, o: Value)
    requires Housed(blocks, h.parent) && !h.InLoop(o)
    ensures OutOfLoop(InOrder(blocks, size), h.loop, o)
  {
  }

  /** Under what the code is when read as blocks, and the header that control enters by, hoisting keeps SSA form and
      changes no run. */
  ghost predicate HoistFaithful(g: Cfg, nm: Naming, ops: Operands, blocks: map<Block, seq<Value>>,
                                blocks': map<Block, seq<Value>>, loop: set<Block>, movable: set<Value>, header: Block,
                                preds: seq<Block>)
  {
    LoopCode(g, nm, ops, InOrder(blocks, g.Size()), loop, header) && NoEffects(nm, movable) &&
    header < |g.preds| && g.preds[header] == preds ==>
      SsaCode(g, nm, ops, InOrder(blocks', g.Size())) &&
      HoistKeepsRuns(g, nm, movable, BodyFor(nm, ops, InOrder(blocks, g.Size())),
                     BodyFor(nm, ops, InOrder(blocks', g.Size())))
  }

  lemma HoistedFaithful(g: Cfg, nm: Naming, h: View, t: Snapshot, blocks: map<Block, seq<Value>>,
                        blocks': map<Block, seq<Value>>, parent': map<Value, Block>, header: Block, preds: seq<Block>,
                        moved: seq<Value>, preheader: Block)
    requires h.Ranked() && h.ops == t.ops && t.Closed() && Ordered(t, ToSet(moved), moved) && Housed(blocks, h.parent)
    requires forall v :: v in moved <==> v in h.parent && IsMoved(h, v)
    requires Hoisted(blocks, h.parent, blocks', parent', preheader, moved)
    requires OutsidePreds(preds, h.loop) == [preheader]
    ensures HoistFaithful(g, nm, t.ops, blocks, blocks', h.loop, h.movable, header, preds)
  {
    hide View.Ranked, Invariant, Ordered, Moves, IsMoved, Housed, LoopCode, SsaCode, NoEffects, HoistKeepsRuns, BodyFor,
         MovesTo, Snapshot.Closed, Filter;
    var n := g.Size();
    if LoopCode(g, nm, t.ops, InOrder(blocks, n), h.loop, header) && NoEffects(nm, h.movable) &&
       header < |g.preds| && g.preds[header] == preds {
      OutsideAreOutside(preds, h.loop);
      assert preheader in [preheader];
      LoopPreds(g, nm, t.ops, InOrder(blocks, n), h.loop, header, preheader);
      OrderMoves(h, t, blocks, n, moved, preheader);
      forall u: Block | u in preds && u !in h.loop
        ensures u == preheader
      {
        assert u in OutsidePreds(preds, h.loop);
      }
      FilteredLists(blocks, h.parent, blocks', parent', preheader, moved, n);
      StillSsa(g, nm, t, InOrder(blocks, n), InOrder(blocks', n), h.loop, header, h.movable, moved, preheader);
      HeapHoisted(g, nm, t, InOrder(blocks, n), InOrder(blocks', n), h.loop, header, h.movable, moved, preheader);
    }
  }

  lemma LoopPreds(g: Cfg, nm: Naming, ops: Operands, list: seq<seq<Value>>, loop: set<Block>, header: Block, p: Block)
    requires LoopCode(g, nm, ops, list, loop, header) && header < |g.preds| && p in g.preds[header]
    ensures p < g.Size() && forall c :: c in loop ==> c < g.Size()
  {
    hide NamesApart, SsaRun.StrictAt, SsaRun.UniqueSites, IsTerminator;
    assert g.Edge(p, header);
  }

  lemma FilteredLists(blocks: map<Block, seq<Value>>, parent: map<Value, Block>, blocks': map<Block, seq<Value>>,
                      parent': map<Value, Block>, preheader: Block, moved: seq<Value>, size: nat)
    requires Hoisted(blocks, parent, blocks', parent', preheader, moved) && preheader < size
    ensures var list, list' := InOrder(blocks, size), InOrder(blocks', size);
            && (forall b :: 0 <= b < size && b != preheader ==> list'[b] == Filter(list[b], ToSet(moved)))
            && list[preheader] != []
            && var n := |list[preheader]| - 1;
               list'[preheader] == list[preheader][..n] + moved + [list[preheader][n]]
  {
  }
}
