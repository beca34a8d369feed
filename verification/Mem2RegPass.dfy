/** Promotion of stack variables to SSA values. */
module Mem2RegPass {
  import opened Basics
  import opened Graphs
  import opened DomTrees
  import opened DominatorAnalysis
  import opened MemoryIr
  import opened ReachingDefs
  import opened PromotionProof
  import opened RenameState
  import opened PhiPlacement

  /** The instruction at the position of `id` is a load or store of a promoted variable. */
  predicate IsPromotedAccess(f: Func, id: nat) {
    id in f.pos && f.pos[id].0 < |f.body| && f.pos[id].1 < |f.body[f.pos[id].0]| &&
    f.body[f.pos[id].0][f.pos[id].1].AccessesOneOf(f.prom)
  }

  /** `ids` names the promoted loads and stores of the finished blocks and of the first `j` instructions of `b`. */
  ghost predicate Deletes(f: Func, ids: set<nat>, done: set<Block>, b: Block, j: nat) {
    forall id :: id in ids <==> IsPromotedAccess(f, id) && (f.pos[id].0 in done || (f.pos[id].0 == b && f.pos[id].1 < j))
  }

  /** The state of the walk inside block `b`: `j` instructions seen, `i` successors filled. */
  ghost predicate Walking(f: Func, s: Renaming, body: Body, incoming: map<PhiKey, seq<(Value, Block)>>,
                          toDelete: set<nat>, done: set<Block>, b: Block, j: nat, i: nat, filled: set<Slot>)
    requires f.HasTree() && b < |f.g.succs| && i <= |f.g.succs[b]|
  {
    && PartlyResolved(f, s) && Covers(f, s, done, b, j)
    && body == RewriteBody(s, f.body)
    && Filled(f, s, incoming, done, b, i, filled) && PairsFinal(f, incoming)
    && Deletes(f, toDelete, done, b, j)
  }

  function CountOf(pushed: map<Slot, nat>, a: Slot): nat {
    if a in pushed then pushed[a] else 0
  }

  ghost predicate PushedAt(before: seq<Value>, after: seq<Value>, n: nat) {
    n <= |after| && after[..|after| - n] == before
  }

  /** `after` is `before` with `pushed[a]` more entries on the stack of each `a`. */
  ghost predicate PushedOnto(before: map<Slot, seq<Value>>, after: map<Slot, seq<Value>>, pushed: map<Slot, nat>) {
    forall a :: PushedAt(StackOf(before, a), StackOf(after, a), CountOf(pushed, a))
  }

  lemma PushKeeps(before: map<Slot, seq<Value>>, after: map<Slot, seq<Value>>, pushed: map<Slot, nat>, a: Slot,
                  v: Value)
    requires PushedOnto(before, after, pushed)
    ensures PushedOnto(before, Push(after, a, v), pushed[a := 1 + CountOf(pushed, a)])
  {
    forall c
      ensures PushedAt(StackOf(before, c), StackOf(Push(after, a, v), c), CountOf(pushed[a := 1 + CountOf(pushed, a)], c))
    {
      assert PushedAt(StackOf(before, c), StackOf(after, c), CountOf(pushed, c));
      assert StackOf(Push(after, a, v), c) == StackOf(after, c) + if c == a then [v] else [];
    }
  }

  lemma DeleteStep(f: Func, toDelete: set<nat>, done: set<Block>, b: Block, j: nat)
    requires f.HasTree() && f.Strict() && b in f.t && j < |f.body[b]| && Deletes(f, toDelete, done, b, j)
    ensures f.body[b][j].Phi? || !f.body[b][j].AccessesOneOf(f.prom) ==> Deletes(f, toDelete, done, b, j + 1)
    ensures f.body[b][j].AccessesOneOf(f.prom) ==> Deletes(f, toDelete + {f.body[b][j].id}, done, b, j + 1)
  {
    assert f.At(b, j, f.body[b][j]);
  }

  lemma WalkSkip(f: Func, s: Renaming, body: Body, incoming: map<PhiKey, seq<(Value, Block)>>, toDelete: set<nat>,
                 done: set<Block>, b: Block, j: nat)
    requires f.HasTree() && f.Strict() && b in f.t && j < |f.body[b]|
    requires Walking(f, s, body, incoming, toDelete, done, b, j, 0, {})
    requires f.body[b][j].Phi? || !f.body[b][j].AccessesOneOf(f.prom)
    ensures Walking(f, s, body, incoming, toDelete, done, b, j + 1, 0, {})
  {
    hide Covers, Deletes, PartlyResolved, Filled;
    CoverSkip(f, s, done, b, j);
    DeleteStep(f, toDelete, done, b, j);
  }

  lemma WalkStore(f: Func, s: Renaming, body: Body, incoming: map<PhiKey, seq<(Value, Block)>>, toDelete: set<nat>,
                  done: set<Block>, b: Block, j: nat)
    requires f.HasTree() && f.Strict() && b in f.t && j < |f.body[b]|
    requires Walking(f, s, body, incoming, toDelete, done, b, j, 0, {})
    requires forall x :: x in Anc(f.t, f.post, b) && x != b ==> x in done
    requires f.body[b][j].Store? && f.body[b][j].AccessesOneOf(f.prom)
    ensures Walking(f, s, body, incoming, toDelete + {f.body[b][j].id}, done, b, j + 1, 0, {})
    ensures SettledValue(f, s, f.body[b][j].val)
  {
    hide Covers, Deletes, PartlyResolved, Filled, Func.Strict;
    CoverSkip(f, s, done, b, j);
    DeleteStep(f, toDelete, done, b, j);
    StoredValue(f, b, j);
    AvailableSettled(f, s, done, b, j, f.body[b][j].val);
  }

  lemma WalkLoad(f: Func, s: Renaming, body: Body, incoming: map<PhiKey, seq<(Value, Block)>>, toDelete: set<nat>,
                 done: set<Block>, b: Block, j: nat, stacks: map<Slot, seq<Value>>)
    requires f.HasTree() && f.Strict() && b in f.t && j < |f.body[b]| && b !in done
    requires Walking(f, s, body, incoming, toDelete, done, b, j, 0, {}) && StacksAt(f, s, stacks, b, j)
    requires f.body[b][j].Load? && f.body[b][j].AccessesOneOf(f.prom)
    ensures var i := f.body[b][j];
            var v := Top(stacks, i.ptr.id);
            && Grows(s, s[i.id := v])
            && (map k | k in incoming :: RewritePairs(map[i.id := v], incoming[k])) == incoming
            && Walking(f, s[i.id := v], RewriteBody(map[i.id := v], body), incoming, toDelete + {i.id}, done, b, j + 1, 0, {})
  {
    hide Covers, Deletes, Filled, Func.Strict, StacksAt, Top;
    var i := f.body[b][j];
    var v := Top(stacks, i.ptr.id);
    DeleteStep(f, toDelete, done, b, j);
    CoverLoad(f, s, done, b, j, v);
    ReplaceLoad(f, s, stacks, b, j);
    PairsUntouched(f, incoming, i.id, v);
    FilledGrows(f, s, s[i.id := v], incoming, done, b, 0, {});
    forall k | k in s
      ensures s[k] != Result(i.id)
    {
      assert Final(f, s[k]);
    }
    RewriteBodyMore(s, i.id, v, f.body);
  }

  function BlocksOf(defs: map<Slot, set<Block>>, a: Slot): set<Block> {
    if a in defs then defs[a] else {}
  }

  /** `defs` lists the blocks that store to each variable, as far as the first `k` instructions of block `b`. */
  ghost predicate DefsUpTo(body: Body, prom: set<Slot>, defs: map<Slot, set<Block>>, b: Block, k: nat) {
    forall a: Slot, c: Block :: a in prom ==>
      (c in BlocksOf(defs, a) <==>
       (c < b && c < |body| && StoresTo(body[c], a)) ||
       (c == b && c < |body| && k <= |body[c]| && StoresTo(body[c][..k], a)))
  }

  lemma DefsStart(body: Body, prom: set<Slot>, defs: map<Slot, set<Block>>)
    requires defs == map[]
    ensures DefsUpTo(body, prom, defs, 0, 0)
  {
    forall a: Slot, c: Block
      ensures c !in BlocksOf(defs, a)
    {
    }
    forall a: Slot, c: Block | c < |body|
      ensures !StoresTo(body[c][..0], a)
    {
    }
  }

  lemma DefsAt(body: Body, prom: set<Slot>, defs: map<Slot, set<Block>>, b: Block, k: nat, a: Slot, c: Block)
    requires DefsUpTo(body, prom, defs, b, k) && a in prom
    ensures c in BlocksOf(defs, a) <==>
            (c < b && c < |body| && StoresTo(body[c], a)) ||
            (c == b && c < |body| && k <= |body[c]| && StoresTo(body[c][..k], a))
  {
  }

  lemma DefsStep(body: Body, prom: set<Slot>, defs: map<Slot, set<Block>>, b: Block, k: nat)
    requires b < |body| && k < |body[b]| && DefsUpTo(body, prom, defs, b, k)
    ensures var i := body[b][k];
            DefsUpTo(body, prom,
                     if i.Store? && i.AccessesOneOf(prom) then defs[i.ptr.id := BlocksOf(defs, i.ptr.id) + {b}] else defs,
                     b, k + 1)
  {
    StoresToNext(body[b], k);
    var i := body[b][k];
    var defs' := if i.Store? && i.AccessesOneOf(prom) then defs[i.ptr.id := BlocksOf(defs, i.ptr.id) + {b}] else defs;
    forall a, c: Block | a in prom
      ensures c in BlocksOf(defs', a) <==>
              (c < b && c < |body| && StoresTo(body[c], a)) ||
              (c == b && c < |body| && k + 1 <= |body[c]| && StoresTo(body[c][..k + 1], a))
    {
      DefsAt(body, prom, defs, b, k, a, c);
    }
  }

  lemma DefsNext(body: Body, prom: set<Slot>, defs: map<Slot, set<Block>>, b: Block)
    requires b < |body| && DefsUpTo(body, prom, defs, b, |body[b]|)
    ensures DefsUpTo(body, prom, defs, b + 1, 0)
  {
    assert body[b][..|body[b]|] == body[b];
    forall a, c: Block | a in prom
      ensures c in BlocksOf(defs, a) <==>
              (c < b + 1 && c < |body| && StoresTo(body[c], a)) ||
              (c == b + 1 && c < |body| && 0 <= |body[c]| && StoresTo(body[c][..0], a))
    {
      DefsAt(body, prom, defs, b, |body[b]|, a, c);
    }
  }

  function SlotsAt(blockPhis: map<Block, set<Slot>>, b: Block): set<Slot> {
    if b in blockPhis then blockPhis[b] else {}
  }

  lemma AllPushed(before: map<Slot, seq<Value>>)
    ensures PushedOnto(before, before, map[])
  {
    forall a
      ensures PushedAt(StackOf(before, a), StackOf(before, a), CountOf(map[], a))
    {
      assert StackOf(before, a)[..|StackOf(before, a)| - 0] == StackOf(before, a);
    }
  }

  /** Dropping what was pushed for one variable. */
  lemma PopOne(before: map<Slot, seq<Value>>, after: map<Slot, seq<Value>>, pushed: map<Slot, nat>, a: Slot)
    requires PushedOnto(before, after, pushed) && a in pushed
    ensures pushed[a] <= |StackOf(after, a)|
    ensures PushedOnto(before, after[a := StackOf(after, a)[..|StackOf(after, a)| - pushed[a]]], pushed - {a})
  {
    assert PushedAt(StackOf(before, a), StackOf(after, a), CountOf(pushed, a));
    var after' := after[a := StackOf(after, a)[..|StackOf(after, a)| - pushed[a]]];
    forall c
      ensures PushedAt(StackOf(before, c), StackOf(after', c), CountOf(pushed - {a}, c))
    {
      assert PushedAt(StackOf(before, c), StackOf(after, c), CountOf(pushed, c));
      if c == a {
        assert StackOf(after', c) == StackOf(before, c);
        assert StackOf(after', c)[..|StackOf(after', c)| - 0] == StackOf(before, c);
      }
    }
  }

  lemma NonePushed(before: map<Slot, seq<Value>>, after: map<Slot, seq<Value>>)
    requires PushedOnto(before, after, map[])
    ensures forall a :: StackOf(after, a) == StackOf(before, a)
  {
    forall a
      ensures StackOf(after, a) == StackOf(before, a)
    {
      assert PushedAt(StackOf(before, a), StackOf(after, a), CountOf(map[], a));
      assert StackOf(after, a)[..|StackOf(after, a)| - 0] == StackOf(before, a);
    }
  }

  /** `f` is the function as `m` and its dominator analysis see it. */
  ghost predicate Describes(f: Func, m: Mem2Reg)
    reads m`promotable, m`blockPhis, m.dom
  {
    && f.HasTree() && f.Strict()
    && f.g == m.dom.g && f.t == m.dom.idom && f.post == m.dom.postOrderId && f.prom == m.promotable
    && m.dom.domTreeSucc.Keys == f.t.Keys && ChildrenBelow(f.t, m.dom.domTreeSucc, f.g.Size())
    && (forall b: Block, a :: f.HasPhi(b, a) <==> a in SlotsAt(m.blockPhis, b))
  }

  class Mem2Reg {
    const dom: Dominators
    /** The function being rewritten. */
    var body: Body
    var incoming: map<PhiKey, seq<(Value, Block)>>
    var promotable: set<Slot>
    var toDelete: set<nat>
    var varStack: map<Slot, seq<Value>>
    var blockPhis: map<Block, set<Slot>>
    /** The phis placed, block by block and as a set. */
    ghost var phiLists: seq<seq<Instr>>
    ghost var placed: set<PhiKey>
    /** What the promoted loads handled so far have been replaced by. */
    ghost var renaming: Renaming

    constructor (dom: Dominators, body: Body)
      ensures this.dom == dom && this.body == body && incoming == map[] && renaming == map[]
      ensures blockPhis == map[] && varStack == map[] && toDelete == {}
    {
      this.dom, this.body := dom, body;
      incoming, promotable, toDelete, varStack, blockPhis := map[], {}, {}, map[], map[];
      phiLists, placed, renaming := [], {}, map[];
    }

    /** Whether some use of `a` is not a load from it or a store to it. */
    method HasInvalidUse(a: Slot) returns (invalid: bool)
      ensures invalid <==> !OnlyAccessed(body, a)
    {
      for b := 0 to |body|
        invariant forall c, k :: 0 <= c < b && 0 <= k < |body[c]| && Result(a) in body[c][k].Args() ==>
                    body[c][k].Accesses(a)
      {
        for k := 0 to |body[b]|
          invariant forall j :: 0 <= j < k && Result(a) in body[b][j].Args() ==> body[b][j].Accesses(a)
        {
          if Result(a) in body[b][k].Args() && !body[b][k].Accesses(a) {
            return true;
          }
        }
      }
      return false;
    }

    method CollectPromotableAllocas()
      modifies this`promotable
      ensures forall a :: a in promotable <==> IsAlloca(body, a) && OnlyAccessed(body, a)
    {
      promotable := {};
      for b := 0 to |body|
        invariant forall a :: a in promotable <==>
                    OnlyAccessed(body, a) && exists c, k :: 0 <= c < b && 0 <= k < |body[c]| && body[c][k] == Alloca(a)
      {
        for k := 0 to |body[b]|
          invariant forall a :: a in promotable <==>
                      OnlyAccessed(body, a) &&
                      ((exists c, j :: 0 <= c < b && 0 <= j < |body[c]| && body[c][j] == Alloca(a)) ||
                       (exists j :: 0 <= j < k && body[b][j] == Alloca(a)))
        {
          var inst := body[b][k];
          if inst.Alloca? {
            var invalid := HasInvalidUse(inst.id);
            if !invalid {
              promotable := promotable + {inst.id};
            }
          }
        }
      }
    }

    /** The blocks that store to each variable; variables without a store are absent. */
    method CollectDefBlocks() returns (defs: map<Slot, set<Block>>)
      ensures forall a :: a in defs ==> a in promotable && defs[a] == DefBlocks(body, a)
      ensures forall a :: a in promotable && a !in defs ==> DefBlocks(body, a) == {}
    {
      defs := map[];
      DefsStart(body, promotable, defs);
      for b := 0 to |body|
        invariant defs.Keys <= promotable && DefsUpTo(body, promotable, defs, b, 0)
      {
        for k := 0 to |body[b]|
          invariant defs.Keys <= promotable && DefsUpTo(body, promotable, defs, b, k)
        {
          var inst := body[b][k];
          DefsStep(body, promotable, defs, b, k);
          if inst.Store? && inst.AccessesOneOf(promotable) {
            var a := inst.ptr.id;
            defs := defs[a := BlocksOf(defs, a) + {b}];
          }
        }
        DefsNext(body, promotable, defs, b);
      }
      forall a | a in promotable
        ensures BlocksOf(defs, a) == DefBlocks(body, a)
      {
        forall c: Block
          ensures c in BlocksOf(defs, a) <==> c in DefBlocks(body, a)
        {
          DefsAt(body, promotable, defs, |body|, 0, a, c);
        }
      }
    }

    /** The phis placed so far: `phiLists` in front of the blocks of `plain`. */
    ghost predicate Placing(plain: Body)
      reads this`body, this`phiLists, this`placed, this`blockPhis
    {
      && Inserted(plain, body, phiLists, placed)
      && (forall b: Block, a: Slot :: (b, a) in placed <==> a in SlotsAt(blockPhis, b))
    }

    /** An empty phi for `a` at the entry of `block`. */
    method InsertPhi(block: Block, a: Slot, ghost plain: Body)
      requires Placing(plain) && block < |body| && (block, a) !in placed
      modifies this`body, this`phiLists, this`placed, this`blockPhis
      ensures Placing(plain) && placed == old(placed) + {(block, a)}
    {
      InsertOne(plain, body, phiLists, placed, block, a);
      body := body[block := [Phi(block, a)] + body[block]];
      blockPhis := blockPhis[block := SlotsAt(blockPhis, block) + {a}];
      phiLists := phiLists[block := [Phi(block, a)] + phiLists[block]];
      placed := placed + {(block, a)};
    }

    /** Places the phis of one variable at the iterated dominance frontier of its storing blocks. */
    method PlacePhis(a: Slot, defBlocks: set<Block>, ghost plain: Body)
      requires Placing(plain) && PhiBlocks(placed, a) == {}
      requires FrontiersInside(dom.domFrontier, |plain|) && defBlocks <= dom.domFrontier.Keys
      modifies this`body, this`phiLists, this`placed, this`blockPhis
      ensures Placing(plain) && LeastClosed(dom.domFrontier, defBlocks, PhiBlocks(placed, a))
      ensures forall k: PhiKey :: k.1 != a ==> (k in placed <==> k in old(placed))
    {
      hide Inserted, WorkInv, LeastClosed, Placing;
      var worklist := Enumerate(defBlocks);
      var phiBlocks: set<Block> := {};
      WorkStart(dom.domFrontier, defBlocks, worklist);
      while worklist != []
        invariant Placing(plain) && phiBlocks == PhiBlocks(placed, a)
        invariant WorkInv(dom.domFrontier, defBlocks, phiBlocks, worklist, None, {})
        invariant forall k: PhiKey :: k.1 != a ==> (k in placed <==> k in old(placed))
        decreases dom.domFrontier.Keys - phiBlocks, |worklist|
      {
        var defBlock := worklist[0];
        WorkPop(dom.domFrontier, defBlocks, phiBlocks, worklist);
        worklist := worklist[1..];
        var rest := dom.domFrontier[defBlock];
        ghost var size, before := |worklist|, phiBlocks;
        while rest != {}
          invariant before <= phiBlocks <= dom.domFrontier.Keys && (phiBlocks == before ==> |worklist| == size)
          invariant Placing(plain) && phiBlocks == PhiBlocks(placed, a)
          invariant WorkInv(dom.domFrontier, defBlocks, phiBlocks, worklist, Some(defBlock), rest)
          invariant forall k: PhiKey :: k.1 != a ==> (k in placed <==> k in old(placed))
          decreases rest
        {
          var frontier :| frontier in rest;
          WorkOne(dom.domFrontier, defBlocks, phiBlocks, worklist, defBlock, rest, frontier, |plain|);
          rest := rest - {frontier};
          if frontier !in phiBlocks {
            PhiBlocksMore(placed, frontier, a);
            PlainSize(plain);
            InsertPhi(frontier, a, plain);
            phiBlocks := phiBlocks + {frontier};
            if frontier !in defBlocks {
              worklist := worklist + [frontier];
            }
          }
        }
        WorkNext(dom.domFrontier, defBlocks, phiBlocks, worklist, defBlock);
      }
      WorkDone(dom.domFrontier, defBlocks, phiBlocks);
    }

    lemma PlainSize(plain: Body)
      requires Placing(plain)
      ensures |plain| == |body|
    {
    }

    method GeneratePhi()
      requires FrontiersInside(dom.domFrontier, |body|) && forall b: Block :: b < |body| ==> b in dom.domFrontier
      requires blockPhis == map[]
      modifies this`body, this`phiLists, this`placed, this`blockPhis
      ensures Placing(old(body)) && PlacedRight(old(body), dom.domFrontier, promotable, placed)
    {
      hide Inserted, Placing, LeastClosed, PhiBlocks, DefBlocks;
      ghost var plain := body;
      phiLists, placed := seq(|body|, i => []), {};
      StartPlacing();
      var defs := CollectDefBlocks();
      ghost var finished: set<Slot> := {};
      var rest := defs.Keys;
      while rest != {}
        invariant rest <= defs.Keys && finished == defs.Keys - rest
        invariant Placing(plain) && forall k :: k in placed ==> k.1 in finished
        invariant forall a :: a in finished ==> LeastClosed(dom.domFrontier, DefBlocks(plain, a), PhiBlocks(placed, a))
        decreases rest
      {
        var a :| a in rest;
        ghost var before := placed;
        NotPlaced(placed, a);
        DefBlocksInside(plain, a);
        PlacePhis(a, defs[a], plain);
        forall c | c in finished
          ensures PhiBlocks(placed, c) == PhiBlocks(before, c)
        {
          SamePhiBlocks(before, placed, c);
        }
        finished, rest := finished + {a}, rest - {a};
      }
      forall a | a in promotable && a !in defs
        ensures LeastClosed(dom.domFrontier, DefBlocks(plain, a), PhiBlocks(placed, a))
      {
        NotPlaced(placed, a);
        NothingToPlace(dom.domFrontier);
      }
    }

    lemma StartPlacing()
      requires blockPhis == map[] && placed == {} && phiLists == seq(|body|, i => [])
      ensures Placing(body)
    {
    }

    /** Every use of the result of `id` becomes a use of `v`. */
    method ReplaceAllUsesWith(id: nat, v: Value)
      modifies this`body, this`incoming
      ensures body == RewriteBody(map[id := v], old(body))
      ensures incoming == map k | k in old(incoming) :: RewritePairs(map[id := v], old(incoming)[k])
    {
      body := RewriteBody(map[id := v], body);
      incoming := map k | k in incoming :: RewritePairs(map[id := v], incoming[k]);
    }

    ghost predicate WalkingAt(f: Func, done: set<Block>, b: Block, j: nat, i: nat, filled: set<Slot>)
      requires f.HasTree() && b < |f.g.succs| && i <= |f.g.succs[b]|
      reads this`renaming, this`body, this`incoming, this`toDelete
    {
      Walking(f, renaming, body, incoming, toDelete, done, b, j, i, filled)
    }

    /** Pushes the definitions of the block and replaces its promoted loads. */
    method ScanBlock(block: Block, ghost f: Func, ghost done: set<Block>) returns (pushed: map<Slot, nat>)
      requires Describes(f, this) && block in f.t && block !in done
      requires forall x :: x in Anc(f.t, f.post, block) && x != block ==> x in done
      requires WalkingAt(f, done, block, 0, 0, {}) && StacksAt(f, renaming, varStack, block, 0)
      modifies this`body, this`incoming, this`toDelete, this`varStack, this`renaming
      ensures WalkingAt(f, done, block, |f.body[block]|, 0, {})
      ensures StacksAt(f, renaming, varStack, block, |f.body[block]|)
      ensures Grows(old(renaming), renaming) && PushedOnto(old(varStack), varStack, pushed)
    {
      hide Func.Strict, Covers, Deletes, Filled, StacksAt, PushedOnto, IsTree;
      pushed := map[];
      AllPushed(varStack);
      var j := 0;
      while j < |body[block]|
        invariant j <= |f.body[block]|
        invariant WalkingAt(f, done, block, j, 0, {}) && StacksAt(f, renaming, varStack, block, j)
        invariant Grows(old(renaming), renaming) && PushedOnto(old(varStack), varStack, pushed)
        decreases |f.body[block]| - j
      {
        var inst := body[block][j];
        ghost var orig := f.body[block][j];
        CurrentInstr(f, renaming, block, j);
        if inst.Phi? {
          WalkSkip(f, renaming, body, incoming, toDelete, done, block, j);
          StacksPush(f, renaming, varStack, block, j, inst.slot, PhiResult(inst.block, inst.slot),
                     PhiResult(inst.block, inst.slot));
          PushKeeps(old(varStack), varStack, pushed, inst.slot, PhiResult(inst.block, inst.slot));
          varStack := Push(varStack, inst.slot, PhiResult(inst.block, inst.slot));
          pushed := pushed[inst.slot := 1 + CountOf(pushed, inst.slot)];
        } else if inst.Store? && inst.AccessesOneOf(promotable) {
          var a := inst.ptr.id;
          WalkStore(f, renaming, body, incoming, toDelete, done, block, j);
          StacksPush(f, renaming, varStack, block, j, a, inst.val, orig.val);
          PushKeeps(old(varStack), varStack, pushed, a, inst.val);
          toDelete := toDelete + {inst.id};
          varStack := Push(varStack, a, inst.val);
          pushed := pushed[a := 1 + CountOf(pushed, a)];
        } else if inst.Load? && inst.AccessesOneOf(promotable) {
          var v := Top(varStack, inst.ptr.id);
          WalkLoad(f, renaming, body, incoming, toDelete, done, block, j, varStack);
          StacksSkip(f, renaming, varStack, block, j);
          ReplaceAllUsesWith(inst.id, v);
          toDelete := toDelete + {inst.id};
          StacksGrow(f, renaming, renaming[inst.id := v], varStack, varStack, block, j + 1);
          GrowsMore(old(renaming), renaming, renaming[inst.id := v]);
          renaming := renaming[inst.id := v];
        } else {
          WalkSkip(f, renaming, body, incoming, toDelete, done, block, j);
          StacksSkip(f, renaming, varStack, block, j);
        }
        j := j + 1;
      }
    }

    /** Gives the phis of the successors their operands from `block`. */
    method FillSuccessors(block: Block, ghost f: Func, ghost done: set<Block>)
      requires Describes(f, this) && block in f.t && block !in done
      requires WalkingAt(f, done, block, |f.body[block]|, 0, {})
      requires StacksAt(f, renaming, varStack, block, |f.body[block]|)
      modifies this`incoming
      ensures WalkingAt(f, done, block, |f.body[block]|, |f.g.succs[block]|, {})
    {
      hide Func.Strict, Covers, Deletes, Filled, IsTree, PartlyResolved;
      for i := 0 to |dom.g.succs[block]|
        invariant WalkingAt(f, done, block, |f.body[block]|, i, {})
      {
        var succ := dom.g.succs[block][i];
        var rest := SlotsAt(blockPhis, succ);
        ghost var filled := {};
        while rest != {}
          invariant filled !! rest && filled + rest == SlotsAt(blockPhis, succ)
          invariant WalkingAt(f, done, block, |f.body[block]|, i, filled)
          decreases rest
        {
          var a :| a in rest;
          var v := Top(varStack, a);
          ReachingAtEnd(f, renaming, varStack, succ, block, a);
          FillOne(f, renaming, incoming, done, block, i, filled, a, v);
          AppendFinal(f, incoming, (succ, a), v, block);
          incoming := incoming[(succ, a) := Pairs(incoming, (succ, a)) + [(v, block)]];
          filled, rest := filled + {a}, rest - {a};
        }
        FillNext(f, renaming, incoming, done, block, i, filled);
      }
    }

    /** Drops what the block has pushed. */
    method PopPushed(pushed: map<Slot, nat>, ghost before: map<Slot, seq<Value>>)
      requires PushedOnto(before, varStack, pushed)
      modifies this`varStack
      ensures forall a :: StackOf(varStack, a) == StackOf(before, a)
    {
      var rest := pushed;
      while rest != map[]
        invariant PushedOnto(before, varStack, rest)
        decreases rest.Keys
      {
        var a :| a in rest.Keys;
        PopOne(before, varStack, rest, a);
        varStack := varStack[a := StackOf(varStack, a)[..|StackOf(varStack, a)| - rest[a]]];
        rest := rest - {a};
      }
      NonePushed(before, varStack);
    }

    /** Renames the subtree of `block`, leaving the stacks as they were. */
    method Rename(block: Block, ghost f: Func, ghost done: set<Block>) returns (ghost done': set<Block>)
      requires Describes(f, this) && block in f.t && done !! Subtree(f.t, f.post, block)
      requires forall x :: x in Anc(f.t, f.post, block) && x != block ==> x in done
      requires WalkingAt(f, done, block, 0, 0, {}) && StacksAt(f, renaming, varStack, block, 0)
      modifies this`body, this`incoming, this`toDelete, this`varStack, this`renaming
      ensures done' == done + Subtree(f.t, f.post, block)
      ensures WalkingAt(f, done', block, 0, 0, {})
      ensures Grows(old(renaming), renaming)
      ensures forall a :: StackOf(varStack, a) == StackOf(old(varStack), a)
      decreases Subtree(f.t, f.post, block)
    {
      hide Func.Strict, IsTree, Walking, StacksAt, Grows, PushedOnto, StackOf, ChildrenBelow;
      var pushed := ScanBlock(block, f, done);
      FillSuccessors(block, f, done);
      FinishBlock(f, renaming, body, incoming, toDelete, done, block);
      done' := done + {block};
      ghost var stacks, children := varStack, {};
      var rest := dom.domTreeSucc[block];
      while rest != {}
        invariant rest <= dom.domTreeSucc[block] && children == dom.domTreeSucc[block] - rest
        invariant DoneBelow(f, done, block, children, done')
        invariant WalkingAt(f, done', block, 0, 0, {}) && StacksAt(f, renaming, varStack, block, |f.body[block]|)
        invariant Grows(old(renaming), renaming)
        invariant forall a :: StackOf(varStack, a) == StackOf(stacks, a)
        decreases rest
      {
        var child :| child in rest;
        ghost var before, beforeStack := renaming, varStack;
        EnterChild(f, dom.domTreeSucc, renaming, body, incoming, toDelete, done, done', block, children, child, varStack);
        done' := Rename(child, f, done');
        LeaveChild(f, before, renaming, body, incoming, toDelete, done, done', block, children, child, beforeStack, varStack);
        GrowsMore(old(renaming), before, renaming);
        children, rest := children + {child}, rest - {child};
      }
      AllChildren(f, dom.domTreeSucc, done, block, done');
      PushedSame(old(varStack), stacks, varStack, pushed);
      PopPushed(pushed, old(varStack));
    }

    /** Whether any operand, of an instruction or of a phi, is the address of `a`. */
    method HasUse(a: Slot) returns (used: bool)
      ensures used <==> UsedIn(body, incoming, a)
    {
      for b := 0 to |body|
        invariant forall c, k :: 0 <= c < b && 0 <= k < |body[c]| ==> Result(a) !in body[c][k].Args()
      {
        for k := 0 to |body[b]|
          invariant forall j :: 0 <= j < k ==> Result(a) !in body[b][j].Args()
        {
          if Result(a) in body[b][k].Args() {
            return true;
          }
        }
      }
      var rest := incoming.Keys;
      while rest != {}
        invariant rest <= incoming.Keys
        invariant forall k, j :: k in incoming && k !in rest && 0 <= j < |incoming[k]| ==> incoming[k][j].0 != Result(a)
        decreases rest
      {
        var k :| k in rest;
        for j := 0 to |incoming[k]|
          invariant forall i :: 0 <= i < j ==> incoming[k][i].0 != Result(a)
        {
          if incoming[k][j].0 == Result(a) {
            return true;
          }
        }
        rest := rest - {k};
      }
      return false;
    }

    /** Erases the promoted loads and stores, then every promoted variable that is no longer used. */
    method DeletePromotedMemoryInstructions()
      modifies this`body, this`promotable
      ensures promotable <= old(promotable)
      ensures body == WithoutAll(WithoutAll(old(body), toDelete), old(promotable) - promotable)
      ensures forall a :: a in promotable ==> UsedIn(WithoutAll(old(body), toDelete), incoming, a)
    {
      body := WithoutAll(body, toDelete);
      ghost var kept := body;
      var rest := promotable;
      ghost var erased: set<Slot> := {};
      WithoutNothing(body);
      while rest != {}
        invariant rest <= promotable && erased == old(promotable) - promotable && promotable <= old(promotable)
        invariant body == WithoutAll(kept, erased)
        invariant forall a :: a in promotable && a !in rest ==> UsedIn(kept, incoming, a)
        decreases rest
      {
        var a :| a in rest;
        rest := rest - {a};
        var used := HasUse(a);
        if used {
          StillUsed(kept, incoming, erased, a);
        } else {
          WithoutMore(kept, erased, {a});
          promotable, erased := promotable - {a}, erased + {a};
          body := WithoutAll(body, {a});
        }
      }
    }

    /** The whole pass. `f` is the function with its phis in place, and `s` what replaced each promoted load.

        Requires the dominator analysis of a function whose entry block has no predecessor. */
    method Run(ghost pos: map<nat, (Block, nat)>) returns (ghost f: Func, ghost s: Renaming)
      requires dom.Computed() && |body| == dom.g.Size() && DefinedBeforeUse(dom.g, body, pos)
      requires dom.g.preds[ENTRY] == [] && ExactFrontiers(dom.g, dom.domFrontier)
      requires dom.domFrontier.Keys == dom.idom.Keys && dom.domTreeSucc.Keys == dom.idom.Keys
      requires ChildrenBelow(dom.idom, dom.domTreeSucc, dom.g.Size())
      requires incoming == map[] && varStack == map[] && blockPhis == map[] && toDelete == {} && renaming == map[]
      modifies this
      ensures Sound(f) && f.g == dom.g && f.t == dom.idom && IsPlain(f, old(body)) && IsPromotion(f, s, Prog(body, incoming))
      ensures forall a :: a in f.prom <==> IsAlloca(old(body), a) && OnlyAccessed(old(body), a)
      ensures forall a :: a in f.prom ==>
                LeastClosed(dom.domFrontier, DefBlocks(old(body), a), set b: Block | b in dom.idom && f.HasPhi(b, a))
      ensures promotable == {}
      ensures OperandPerEdge(f, incoming)
      ensures forall w, p, b :: f.g.PathTo(p, b) ==> SameTrace(f.prom, old(body), Prog(body, incoming), w, p)
    {
      hide Func.Strict, Sound, Resolves, PhisFilled, LeastClosed, Dominators.Computed, ExactFrontiers, ChildrenBelow,
           Placing, PlacedRight, Walking, StacksAt, DefBlocks, IsPlain, OperandPerEdge, DefinedBeforeUse, PairsFinal,
           IsAlloca, OnlyAccessed, SameTrace;
      ghost var p := Func(dom.g, dom.idom, dom.postOrderId, body, {}, pos);
      InputReady(p);
      CollectPromotableAllocas();
      ghost var prom := promotable;
      GeneratePhi();
      f := WithPhis(p, prom, body, phiLists);
      Ready(p);
      ghost var done := Rename(ENTRY, f, {});
      s := renaming;
      RenamingComplete(f, s, body, incoming, toDelete, done);
      NoUseLeft(f, s, incoming, toDelete);
      DeletePromotedMemoryInstructions();
      assert promotable == {} && prom - promotable == f.prom;
      DeletionComplete(f, s, toDelete);
      FinalResult(f, s, p.body, Prog(body, incoming));
    }

    lemma InputReady(p: Func)
      requires dom.Computed() && p == Func(dom.g, dom.idom, dom.postOrderId, body, {}, p.pos)
      requires |body| == dom.g.Size() && DefinedBeforeUse(dom.g, body, p.pos)
      requires ExactFrontiers(dom.g, dom.domFrontier) && dom.domFrontier.Keys == dom.idom.Keys
      ensures p.HasTree() && p.Strict()
      ensures FrontiersInside(dom.domFrontier, |body|) && forall b: Block :: b < |body| ==> b in dom.domFrontier
    {
      InputStrict(p);
    }

    /** Everything the renaming walk needs holds before it starts. */
    lemma Ready(p: Func)
      requires dom.Computed() && p.g == dom.g && p.t == dom.idom && p.post == dom.postOrderId
      requires p.prom == {} && p.HasTree() && p.Strict()
      requires dom.g.preds[ENTRY] == [] && ExactFrontiers(dom.g, dom.domFrontier)
      requires dom.domFrontier.Keys == dom.idom.Keys && dom.domTreeSucc.Keys == dom.idom.Keys
      requires ChildrenBelow(dom.idom, dom.domTreeSucc, dom.g.Size())
      requires forall a :: a in promotable <==> IsAlloca(p.body, a) && OnlyAccessed(p.body, a)
      requires Placing(p.body) && PlacedRight(p.body, dom.domFrontier, promotable, placed)
      requires incoming == map[] && varStack == map[] && toDelete == {} && renaming == map[]
      ensures var f := WithPhis(p, promotable, body, phiLists);
              && Sound(f) && IsPlain(f, p.body) && Describes(f, this) && ENTRY in f.t
              && (forall x :: x in Anc(f.t, f.post, ENTRY) ==> x == ENTRY)
              && WalkingAt(f, {}, ENTRY, 0, 0, {}) && StacksAt(f, renaming, varStack, ENTRY, 0)
              && (forall a :: a in f.prom ==>
                    LeastClosed(dom.domFrontier, DefBlocks(p.body, a), set b: Block | b in dom.idom && f.HasPhi(b, a)))
    {
      hide Func.Strict, PostOrdered, Fixpoint, KeepsDominators, LeastClosed, Sound, IsPlain, DefBlocks;
      var f := WithPhis(p, promotable, body, phiLists);
      PlacementSound(p, dom.domFrontier, promotable, body, phiLists, placed);
      InsertedStrict(p, promotable, body, phiLists, placed);
      PlacedDescribes(p, f);
      WalkStarts(f);
    }

    lemma PlacedDescribes(p: Func, f: Func)
      requires p.prom == {} && p.HasTree() && p.Strict() && f == WithPhis(p, promotable, body, phiLists)
      requires forall a :: a in promotable <==> IsAlloca(p.body, a) && OnlyAccessed(p.body, a)
      requires Placing(p.body) && PlacedRight(p.body, dom.domFrontier, promotable, placed)
      ensures forall b: Block, a :: f.HasPhi(b, a) <==> a in SlotsAt(blockPhis, b)
      ensures forall a :: a in f.prom ==>
                LeastClosed(dom.domFrontier, DefBlocks(p.body, a), set b: Block | b in p.t && f.HasPhi(b, a))
    {
      hide LeastClosed, Func.Strict, DefBlocks;
      forall b: Block, a: Slot
        ensures f.HasPhi(b, a) <==> (b, a) in placed
      {
        HasPhiIffPlaced(p, promotable, body, phiLists, placed, b, a);
      }
      forall a | a in f.prom
        ensures (set b: Block | b in p.t && f.HasPhi(b, a)) == PhiBlocks(placed, a)
      {
        forall b: Block
          ensures b in p.t && f.HasPhi(b, a) <==> b in PhiBlocks(placed, a)
        {
          assert f.HasPhi(b, a) <==> (b, a) in placed;
        }
      }
    }
  }

  // ----- end of class -----

  lemma GrowsMore(r: Renaming, s: Renaming, t: Renaming)
    requires Grows(r, s) && Grows(s, t)
    ensures Grows(r, t)
  {
  }

  /** How the instruction under the walk looks now, against how it was. */
  lemma CurrentInstr(f: Func, s: Renaming, b: Block, j: nat)
    requires f.HasTree() && f.Strict() && b in f.t && j < |f.body[b]| && PartlyResolved(f, s)
    ensures var i, c := f.body[b][j], Rewrite(s, f.body[b][j]);
            && c.Phi? == i.Phi? && c.Load? == i.Load? && c.Store? == i.Store?
            && (i.Phi? ==> c == i && i.slot in f.prom && i.block == b)
            && (!i.Phi? ==> c.id == i.id)
            && c.AccessesOneOf(f.prom) == i.AccessesOneOf(f.prom)
            && (i.AccessesOneOf(f.prom) ==> c.ptr == i.ptr)
            && (i.Store? ==> c.val == Res(s, i.val))
  {
    var i := f.body[b][j];
    assert f.At(b, j, i);
    if (i.Load? || i.Store?) && i.ptr.Result? && i.ptr.id in s {
      ResNotVariable(f, s, i.ptr);
    }
  }

  lemma ReachingAtEnd(f: Func, s: Renaming, stacks: map<Slot, seq<Value>>, succ: Block, b: Block, a: Slot)
    requires f.HasTree() && f.Strict() && b in f.t && PartlyResolved(f, s) && f.HasPhi(succ, a)
    requires StacksAt(f, s, stacks, b, |f.body[b]|)
    ensures SettledValue(f, s, f.ReachOut(b, a)) && Top(stacks, a) == Res(s, f.ReachOut(b, a))
    ensures Final(f, Top(stacks, a)) && NotVariable(f, Top(stacks, a))
  {
    var k :| 0 <= k < |f.body[succ]| && f.body[succ][k] == Phi(succ, a);
    assert f.At(succ, k, Phi(succ, a));
    assert Top(stacks, a) == Res(s, f.Reach(b, |f.body[b]|, a));
    ReachNotVariable(f, s, b, |f.body[b]|, a);
  }

  lemma AppendFinal(f: Func, incoming: map<PhiKey, seq<(Value, Block)>>, k: PhiKey, v: Value, b: Block)
    requires PairsFinal(f, incoming) && Final(f, v) && NotVariable(f, v)
    ensures PairsFinal(f, incoming[k := Pairs(incoming, k) + [(v, b)]])
  {
  }

  /** The block is finished: only its children are left. */
  lemma FinishBlock(f: Func, s: Renaming, body: Body, incoming: map<PhiKey, seq<(Value, Block)>>, toDelete: set<nat>,
                    done: set<Block>, b: Block)
    requires f.HasTree() && b in f.t
    requires Walking(f, s, body, incoming, toDelete, done, b, |f.body[b]|, |f.g.succs[b]|, {})
    ensures Walking(f, s, body, incoming, toDelete, done + {b}, b, 0, 0, {})
    ensures DoneBelow(f, done, b, {}, done + {b})
  {
    hide Filled, PartlyResolved, PairsFinal;
    FillDone(f, s, incoming, done, b, b);
  }

  /** `done'` adds to `done` the block `b` and the subtrees of `children`. */
  ghost predicate DoneBelow(f: Func, done: set<Block>, b: Block, children: set<Block>, done': set<Block>)
    requires f.HasTree()
  {
    forall x :: x in done' <==> x in done || x == b || exists c :: c in children && x in Subtree(f.t, f.post, c)
  }

  lemma ChildFacts(f: Func, succ: map<Block, set<Block>>, b: Block, c: Block)
    requires f.HasTree() && b in f.t && b in succ && ChildrenBelow(f.t, succ, f.g.Size()) && c in succ[b]
    ensures c in f.t && c != ENTRY && Parent(f.t, c) == b && f.post[c] < f.post[b]
  {
  }

  lemma SwitchBlock(f: Func, s: Renaming, body: Body, incoming: map<PhiKey, seq<(Value, Block)>>, toDelete: set<nat>,
                    done: set<Block>, b: Block, c: Block)
    requires f.HasTree() && b in f.t && c in f.t && Walking(f, s, body, incoming, toDelete, done, b, 0, 0, {})
    ensures Walking(f, s, body, incoming, toDelete, done, c, 0, 0, {})
  {
    hide Filled, PartlyResolved, PairsFinal;
    FillOther(f, s, incoming, done, b, c);
  }

  lemma ChildFresh(f: Func, succ: map<Block, set<Block>>, done: set<Block>, done': set<Block>, b: Block,
                   children: set<Block>, c: Block)
    requires f.HasTree() && b in f.t && b in succ && ChildrenBelow(f.t, succ, f.g.Size())
    requires done !! Subtree(f.t, f.post, b) && children <= succ[b] && c in succ[b] && c !in children
    requires forall x :: x in Anc(f.t, f.post, b) && x != b ==> x in done
    requires DoneBelow(f, done, b, children, done')
    ensures c in f.t && done' !! Subtree(f.t, f.post, c)
    ensures forall x :: x in Anc(f.t, f.post, c) && x != c ==> x in done'
  {
    ChildFacts(f, succ, b, c);
    SubtreeOfChild(f.t, f.post, b, c);
    forall d | d in children
      ensures Subtree(f.t, f.post, d) !! Subtree(f.t, f.post, c)
    {
      ChildFacts(f, succ, b, d);
      SiblingsApart(f.t, f.post, b, c, d);
    }
  }

  lemma StacksForChild(f: Func, s: Renaming, stacks: map<Slot, seq<Value>>, b: Block, c: Block)
    requires f.HasTree() && b in f.t && c in f.t && c != ENTRY && Parent(f.t, c) == b
    requires StacksAt(f, s, stacks, b, |f.body[b]|)
    ensures StacksAt(f, s, stacks, c, 0)
  {
    forall a | a in f.prom
      ensures SettledValue(f, s, f.Reach(c, 0, a)) && Top(stacks, a) == Res(s, f.Reach(c, 0, a))
    {
      assert f.Reach(c, 0, a) == f.Reach(b, |f.body[b]|, a);
    }
  }

  lemma EnterChild(f: Func, succ: map<Block, set<Block>>, s: Renaming, body: Body,
                   incoming: map<PhiKey, seq<(Value, Block)>>, toDelete: set<nat>, done: set<Block>, done': set<Block>,
                   b: Block, children: set<Block>, c: Block, stacks: map<Slot, seq<Value>>)
    requires f.HasTree() && b in f.t && b in succ && ChildrenBelow(f.t, succ, f.g.Size())
    requires done !! Subtree(f.t, f.post, b) && children <= succ[b] && c in succ[b] && c !in children
    requires forall x :: x in Anc(f.t, f.post, b) && x != b ==> x in done
    requires DoneBelow(f, done, b, children, done')
    requires Walking(f, s, body, incoming, toDelete, done', b, 0, 0, {}) && StacksAt(f, s, stacks, b, |f.body[b]|)
    ensures c in f.t && Subtree(f.t, f.post, c) < Subtree(f.t, f.post, b) && done' !! Subtree(f.t, f.post, c)
    ensures forall x :: x in Anc(f.t, f.post, c) && x != c ==> x in done'
    ensures PartlyResolved(f, s)
    ensures Walking(f, s, body, incoming, toDelete, done', c, 0, 0, {}) && StacksAt(f, s, stacks, c, 0)
  {
    hide StacksAt, DoneBelow, Filled, Covers, Deletes, PairsFinal;
    ChildFresh(f, succ, done, done', b, children, c);
    ChildFacts(f, succ, b, c);
    SubtreeOfChild(f.t, f.post, b, c);
    assert b in Subtree(f.t, f.post, b);
    SwitchBlock(f, s, body, incoming, toDelete, done', b, c);
    StacksForChild(f, s, stacks, b, c);
  }

  lemma LeaveChild(f: Func, s: Renaming, s': Renaming, body: Body, incoming: map<PhiKey, seq<(Value, Block)>>,
                   toDelete: set<nat>, done: set<Block>, done': set<Block>, b: Block, children: set<Block>, c: Block,
                   stacks: map<Slot, seq<Value>>, stacks': map<Slot, seq<Value>>)
    requires f.HasTree() && b in f.t && c in f.t
    requires exists d :: DoneBelow(f, done, b, children, d) && done' == d + Subtree(f.t, f.post, c)
    requires PartlyResolved(f, s) && Grows(s, s') && StacksAt(f, s, stacks, b, |f.body[b]|)
    requires forall a :: StackOf(stacks', a) == StackOf(stacks, a)
    requires Walking(f, s', body, incoming, toDelete, done', c, 0, 0, {})
    ensures DoneBelow(f, done, b, children + {c}, done')
    ensures Walking(f, s', body, incoming, toDelete, done', b, 0, 0, {})
    ensures StacksAt(f, s', stacks', b, |f.body[b]|)
  {
    hide StacksAt;
    SwitchBlock(f, s', body, incoming, toDelete, done', c, b);
    StacksGrow(f, s, s', stacks, stacks', b, |f.body[b]|);
  }

  lemma AllChildren(f: Func, succ: map<Block, set<Block>>, done: set<Block>, b: Block, done': set<Block>)
    requires f.HasTree() && b in f.t && b in succ && ChildrenBelow(f.t, succ, f.g.Size())
    requires DoneBelow(f, done, b, succ[b], done')
    ensures done' == done + Subtree(f.t, f.post, b)
  {
    forall x
      ensures x in done' <==> x in done || x in Subtree(f.t, f.post, b)
    {
      if x in Subtree(f.t, f.post, b) && x != b {
        var c := ChildTowards(f.t, f.post, b, x);
        assert c in succ[b];
      }
      if c :| c in succ[b] && x in Subtree(f.t, f.post, c) {
        ChildFacts(f, succ, b, c);
        SubtreeOfChild(f.t, f.post, b, c);
      }
    }
  }

  lemma PushedSame(before: map<Slot, seq<Value>>, mid: map<Slot, seq<Value>>, after: map<Slot, seq<Value>>,
                   pushed: map<Slot, nat>)
    requires PushedOnto(before, mid, pushed) && forall a :: StackOf(after, a) == StackOf(mid, a)
    ensures PushedOnto(before, after, pushed)
  {
    forall a
      ensures PushedAt(StackOf(before, a), StackOf(after, a), CountOf(pushed, a))
    {
      assert PushedAt(StackOf(before, a), StackOf(mid, a), CountOf(pushed, a));
    }
  }

  // ----- phi placement -----

  lemma StoresToNext(code: seq<Instr>, k: nat)
    requires k < |code|
    ensures forall a :: StoresTo(code[..k + 1], a) <==> StoresTo(code[..k], a) || (code[k].Store? && code[k].Accesses(a))
  {
    assert code[..k + 1] == code[..k] + [code[k]];
  }

  ghost predicate FrontiersInside(df: Frontiers, n: nat) {
    (forall x :: x in df ==> df[x] <= df.Keys) && forall x :: x in df ==> x < n
  }

  lemma NotPlaced(placed: set<PhiKey>, a: Slot)
    requires forall k: PhiKey :: k in placed ==> k.1 != a
    ensures PhiBlocks(placed, a) == {}
  {
  }

  lemma NothingToPlace(df: Frontiers)
    ensures LeastClosed(df, {}, {})
  {
  }

  lemma DefBlocksInside(plain: Body, a: Slot)
    ensures forall b :: b in DefBlocks(plain, a) ==> b < |plain|
  {
  }

  /** The worklist loop: `current` is the block being handled, with the blocks of `rest` still to come. */
  ghost predicate WorkInv(df: Frontiers, defs: set<Block>, phis: set<Block>, worklist: seq<Block>,
                          current: Option<Block>, rest: set<Block>) {
    && phis <= df.Keys
    && (forall x :: x in worklist ==> x in df && (x in defs || x in phis))
    && Pending(df, defs, phis, worklist + if current.Some? then [current.value] else [])
    && (current.Some? ==> current.value in df && (current.value in defs || current.value in phis) &&
                          rest <= df[current.value] && df[current.value] - rest <= phis)
    && (forall t :: ClosedUnder(df, defs, t) ==> phis <= t)
  }

  lemma WorkStart(df: Frontiers, defs: set<Block>, worklist: seq<Block>)
    requires defs <= df.Keys && forall x :: x in worklist <==> x in defs
    ensures WorkInv(df, defs, {}, worklist, None, {})
  {
    assert worklist + [] == worklist;
  }

  lemma WorkPop(df: Frontiers, defs: set<Block>, phis: set<Block>, worklist: seq<Block>)
    requires WorkInv(df, defs, phis, worklist, None, {}) && worklist != []
    ensures worklist[0] in df && phis <= df.Keys
    ensures WorkInv(df, defs, phis, worklist[1..], Some(worklist[0]), df[worklist[0]])
  {
    assert worklist + [] == [worklist[0]] + worklist[1..];
    assert forall x :: x in worklist <==> x in worklist[1..] + [worklist[0]];
  }

  lemma WorkOne(df: Frontiers, defs: set<Block>, phis: set<Block>, worklist: seq<Block>, x: Block, rest: set<Block>,
                y: Block, n: nat)
    requires WorkInv(df, defs, phis, worklist, Some(x), rest) && y in rest && FrontiersInside(df, n)
    ensures y < n && y in df
    ensures y in phis ==> WorkInv(df, defs, phis, worklist, Some(x), rest - {y})
    ensures y !in phis ==>
              WorkInv(df, defs, phis + {y}, if y in defs then worklist else worklist + [y], Some(x), rest - {y})
  {
    if y !in phis {
      var worklist' := if y in defs then worklist else worklist + [y];
      forall t | ClosedUnder(df, defs, t)
        ensures phis + {y} <= t
      {
        assert phis <= t && df[x] <= t;
      }
      forall z | z in df && (z in defs || z in phis + {y}) && z !in worklist' + [x]
        ensures df[z] <= phis + {y}
      {
        assert z !in worklist + [x];
      }
    }
  }

  lemma WorkNext(df: Frontiers, defs: set<Block>, phis: set<Block>, worklist: seq<Block>, x: Block)
    requires WorkInv(df, defs, phis, worklist, Some(x), {})
    ensures WorkInv(df, defs, phis, worklist, None, {})
  {
    assert worklist + [] == worklist;
  }

  lemma WorkDone(df: Frontiers, defs: set<Block>, phis: set<Block>)
    requires WorkInv(df, defs, phis, [], None, {})
    ensures LeastClosed(df, defs, phis)
  {
  }

  /** Every defining block outside the worklist has its whole frontier among the phi blocks. */
  ghost predicate Pending(df: Frontiers, defs: set<Block>, phis: set<Block>, worklist: seq<Block>) {
    forall x :: x in df && (x in defs || x in phis) && x !in worklist ==> df[x] <= phis
  }

  method Enumerate(s: set<Block>) returns (r: seq<Block>)
    ensures forall x :: x in r <==> x in s
  {
    r := [];
    var rest := s;
    while rest != {}
      invariant rest <= s && forall x :: x in r <==> x in s && x !in rest
      decreases rest
    {
      var x :| x in rest;
      r, rest := r + [x], rest - {x};
    }
  }

  lemma PhiBlocksMore(placed: set<PhiKey>, b: Block, a: Slot)
    requires b !in PhiBlocks(placed, a)
    ensures (b, a) !in placed && PhiBlocks(placed + {(b, a)}, a) == PhiBlocks(placed, a) + {b}
  {
    forall x
      ensures x in PhiBlocks(placed + {(b, a)}, a) <==> x in PhiBlocks(placed, a) + {b}
    {
      assert (x, a) in placed + {(b, a)} <==> (x, a) in placed || x == b;
    }
  }

  lemma SamePhiBlocks(p: set<PhiKey>, q: set<PhiKey>, a: Slot)
    requires forall b :: (b, a) in p <==> (b, a) in q
    ensures PhiBlocks(p, a) == PhiBlocks(q, a)
  {
    forall b
      ensures b in PhiBlocks(p, a) <==> b in PhiBlocks(q, a)
    {
      assert (b, a) in p <==> (b, a) in q;
    }
  }

  // ----- deletion -----

  /** `code` without the instructions named in `ids`; phis have no such name. */
  function Without(code: seq<Instr>, ids: set<nat>): seq<Instr> {
    if code == [] then []
    else
      var i := code[|code| - 1];
      Without(code[..|code| - 1], ids) + if !i.Phi? && i.id in ids then [] else [i]
  }

  function WithoutAll(body: Body, ids: set<nat>): (r: Body)
    ensures |r| == |body| && forall b :: 0 <= b < |body| ==> r[b] == Without(body[b], ids)
  {
    seq(|body|, b requires 0 <= b < |body| => Without(body[b], ids))
  }

  ghost predicate UsedIn(body: Body, incoming: map<PhiKey, seq<(Value, Block)>>, a: Slot) {
    || (exists b, k :: 0 <= b < |body| && 0 <= k < |body[b]| && Result(a) in body[b][k].Args())
    || (exists k, j :: k in incoming && 0 <= j < |incoming[k]| && incoming[k][j].0 == Result(a))
  }

  lemma {:induction false} WithoutTwice(code: seq<Instr>, xs: set<nat>, ys: set<nat>)
    ensures Without(Without(code, xs), ys) == Without(code, xs + ys)
    decreases |code|
  {
    if code != [] {
      var front, i := code[..|code| - 1], code[|code| - 1];
      WithoutTwice(front, xs, ys);
      if i.Phi? || i.id !in xs {
        WithoutSnoc(Without(front, xs), i, ys);
      } else {
        assert Without(code, xs) == Without(front, xs);
      }
    }
  }

  lemma WithoutSnoc(code: seq<Instr>, i: Instr, ids: set<nat>)
    ensures Without(code + [i], ids) == Without(code, ids) + if !i.Phi? && i.id in ids then [] else [i]
  {
    assert (code + [i])[..|code|] == code;
  }

  lemma WithoutMore(body: Body, xs: set<nat>, ys: set<nat>)
    ensures WithoutAll(WithoutAll(body, xs), ys) == WithoutAll(body, xs + ys)
  {
    forall b | 0 <= b < |body|
      ensures Without(Without(body[b], xs), ys) == Without(body[b], xs + ys)
    {
      WithoutTwice(body[b], xs, ys);
    }
  }

  lemma {:induction false} WithoutNone(code: seq<Instr>)
    ensures Without(code, {}) == code
    decreases |code|
  {
    if code != [] {
      WithoutNone(code[..|code| - 1]);
    }
  }

  lemma WithoutNothing(body: Body)
    ensures WithoutAll(body, {}) == body
  {
    forall b | 0 <= b < |body|
      ensures Without(body[b], {}) == body[b]
    {
      WithoutNone(body[b]);
    }
  }

  lemma {:induction false} WithoutMembers(code: seq<Instr>, ids: set<nat>, i: Instr)
    ensures i in Without(code, ids) <==> i in code && (i.Phi? || i.id !in ids)
    decreases |code|
  {
    if code != [] {
      WithoutMembers(code[..|code| - 1], ids, i);
      assert code == code[..|code| - 1] + [code[|code| - 1]];
    }
  }

  /** Erasing instructions removes no use that was not in them. */
  lemma StillUsed(body: Body, incoming: map<PhiKey, seq<(Value, Block)>>, ids: set<nat>, a: Slot)
    requires UsedIn(WithoutAll(body, ids), incoming, a)
    ensures UsedIn(body, incoming, a)
  {
    var body': Body := WithoutAll(body, ids);
    if exists b, k :: 0 <= b < |body'| && 0 <= k < |body'[b]| && Result(a) in body'[b][k].Args() {
      var b, k :| 0 <= b < |body'| && 0 <= k < |body'[b]| && Result(a) in body'[b][k].Args();
      WithoutMembers(body[b], ids, body'[b][k]);
      var j :| 0 <= j < |body[b]| && body[b][j] == body'[b][k];
      assert Result(a) in body[b][j].Args();
    }
  }

  // ----- start and end of the walk -----

  lemma RewriteNothing(body: Body)
    ensures RewriteBody(map[], body) == body
  {
    forall b | 0 <= b < |body|
      ensures RewriteAll(map[], body[b]) == body[b]
    {
      forall j | 0 <= j < |body[b]|
        ensures Rewrite(map[], body[b][j]) == body[b][j]
      {
        var i := body[b][j];
        if i.Op? {
          assert Rewrite(map[], i).args == i.args;
        }
      }
    }
  }

  lemma WalkStarts(f: Func)
    requires f.HasTree()
    ensures ENTRY in f.t && forall x :: x in Anc(f.t, f.post, ENTRY) ==> x == ENTRY
    ensures Walking(f, map[], f.body, map[], {}, {}, ENTRY, 0, 0, {})
    ensures StacksAt(f, map[], map[], ENTRY, 0)
  {
    RewriteNothing(f.body);
    forall p: Block, x: Block, a | p in f.t && f.HasPhi(x, a)
      ensures FilledFrom(f, map[], map[], p, x, a, Expected(f, {}, ENTRY, 0, {}, p, x, a))
    {
      assert f.g.succs[ENTRY][..0] == [];
    }
  }

  lemma SubtreeOfEntry(f: Func)
    requires f.HasTree()
    ensures Subtree(f.t, f.post, ENTRY) == f.t.Keys
  {
    forall x | x in f.t
      ensures x in Subtree(f.t, f.post, ENTRY)
    {
      RootIsAnc(f.t, f.post, x);
    }
  }

  /** Every phi has one operand for each edge into its block. */
  ghost predicate OperandPerEdge(f: Func, incoming: map<PhiKey, seq<(Value, Block)>>) {
    forall p: Block, x: Block, a {:trigger ValuesFrom(Pairs(incoming, (x, a)), p)} ::
      p < |f.g.succs| && f.HasPhi(x, a) ==> |ValuesFrom(Pairs(incoming, (x, a)), p)| == multiset(f.g.succs[p])[x]
  }

  lemma AllFilled(f: Func, s: Renaming, incoming: map<PhiKey, seq<(Value, Block)>>, done: set<Block>)
    requires f.HasTree() && done == f.t.Keys && ENTRY < |f.g.succs| && Filled(f, s, incoming, done, ENTRY, 0, {})
    ensures OperandPerEdge(f, incoming) && PhisFilled(f, s, incoming)
  {
    forall p: Block, x: Block, a | p < |f.g.succs| && f.HasPhi(x, a)
      ensures FilledFrom(f, s, incoming, p, x, a, multiset(f.g.succs[p])[x])
    {
      assert Expected(f, done, ENTRY, 0, {}, p, x, a) == multiset(f.g.succs[p])[x];
    }
    forall p: Block, b: Block, a | p in f.t && f.g.Edge(p, b) && f.HasPhi(b, a)
      ensures IncomingFor(incoming, (b, a), p) == Res(s, f.ReachOut(p, a))
    {
      assert FilledFrom(f, s, incoming, p, b, a, multiset(f.g.succs[p])[b]);
      FirstOfValues(Pairs(incoming, (b, a)), p);
    }
  }

  lemma AllCovered(f: Func, s: Renaming, toDelete: set<nat>, done: set<Block>)
    requires f.HasTree() && f.Strict() && done == f.t.Keys
    requires PartlyResolved(f, s) && Covers(f, s, done, ENTRY, 0) && Deletes(f, toDelete, done, ENTRY, 0)
    ensures Resolves(f, s)
    ensures forall id :: id in toDelete <==> IsPromotedAccess(f, id)
  {
  }

  /** After the walk every promoted load is replaced and every phi has its operands. */
  lemma RenamingComplete(f: Func, s: Renaming, body: Body, incoming: map<PhiKey, seq<(Value, Block)>>,
                         toDelete: set<nat>, done: set<Block>)
    requires Sound(f) && done == {} + Subtree(f.t, f.post, ENTRY)
    requires ENTRY < |f.g.succs| && Walking(f, s, body, incoming, toDelete, done, ENTRY, 0, 0, {})
    ensures Resolves(f, s) && PhisFilled(f, s, incoming) && body == RewriteBody(s, f.body)
    ensures forall id :: id in toDelete <==> IsPromotedAccess(f, id)
    ensures OperandPerEdge(f, incoming) && PairsFinal(f, incoming)
  {
    hide Func.Strict, Func.PhisPlaced, PostOrdered, Fixpoint, KeepsDominators, Subtree, Filled, Covers, Deletes,
         Resolves, OperandPerEdge, PhisFilled;
    SubtreeOfEntry(f);
    AllFilled(f, s, incoming, done);
    AllCovered(f, s, toDelete, done);
  }

  /** Once the promoted loads and stores are gone, nothing uses a promoted variable. */
  lemma NoUseLeft(f: Func, s: Renaming, incoming: map<PhiKey, seq<(Value, Block)>>, toDelete: set<nat>)
    requires f.HasTree() && f.Strict() && Resolves(f, s) && PairsFinal(f, incoming)
    requires forall id :: id in toDelete <==> IsPromotedAccess(f, id)
    ensures forall a :: a in f.prom ==> !UsedIn(WithoutAll(RewriteBody(s, f.body), toDelete), incoming, a)
  {
    hide Func.Strict, Resolves, PairsFinal, IsTree, IsPromotedAccess, Without, Rewrite;
    forall a | a in f.prom
      ensures !UsedIn(WithoutAll(RewriteBody(s, f.body), toDelete), incoming, a)
    {
      PairsNotVariable(f, incoming, a);
      forall b: Block, k | 0 <= b < |f.body| && 0 <= k < |Without(RewriteAll(s, f.body[b]), toDelete)|
        ensures Result(a) !in Without(RewriteAll(s, f.body[b]), toDelete)[k].Args()
      {
        KeptNotVariable(f, s, toDelete, b, Without(RewriteAll(s, f.body[b]), toDelete)[k], a);
      }
    }
  }

  lemma PairsNotVariable(f: Func, incoming: map<PhiKey, seq<(Value, Block)>>, a: Slot)
    requires PairsFinal(f, incoming) && a in f.prom
    ensures forall k, j :: k in incoming && 0 <= j < |incoming[k]| ==> incoming[k][j].0 != Result(a)
  {
    forall k, j | k in incoming && 0 <= j < |incoming[k]|
      ensures incoming[k][j].0 != Result(a)
    {
      assert NotVariable(f, incoming[k][j].0);
    }
  }

  lemma KeptNotVariable(f: Func, s: Renaming, toDelete: set<nat>, b: Block, i: Instr, a: Slot)
    requires f.HasTree() && f.Strict() && Resolves(f, s) && b in f.t && a in f.prom
    requires forall id :: id in toDelete <==> IsPromotedAccess(f, id)
    requires i in Without(RewriteAll(s, f.body[b]), toDelete)
    ensures Result(a) !in i.Args()
  {
    hide Func.Strict, Resolves, IsTree, IsPromotedAccess;
    WithoutMembers(RewriteAll(s, f.body[b]), toDelete, i);
    var j :| 0 <= j < |f.body[b]| && RewriteAll(s, f.body[b])[j] == i;
    OperandNotVariable(f, s, toDelete, b, j, a);
  }

  lemma AccessIsNamed(f: Func, b: Block, j: nat)
    requires f.HasTree() && f.Strict() && b in f.t && j < |f.body[b]|
    ensures f.body[b][j].AccessesOneOf(f.prom) ==> IsPromotedAccess(f, f.body[b][j].id)
  {
    assert f.At(b, j, f.body[b][j]);
  }

  lemma OperandNotVariable(f: Func, s: Renaming, toDelete: set<nat>, b: Block, j: nat, a: Slot)
    requires f.HasTree() && f.Strict() && Resolves(f, s) && b in f.t && j < |f.body[b]| && a in f.prom
    requires forall id :: id in toDelete <==> IsPromotedAccess(f, id)
    requires f.body[b][j].Phi? || f.body[b][j].id !in toDelete
    ensures Result(a) !in Rewrite(s, f.body[b][j]).Args()
  {
    var i := f.body[b][j];
    assert f.At(b, j, i);
    var args, args' := i.Args(), Rewrite(s, i).Args();
    assert |args| == |args'|;
    AccessIsNamed(f, b, j);
    assert Result(a) !in args;
    forall k | 0 <= k < |args'|
      ensures args'[k] != Result(a)
    {
      assert args'[k] == Res(s, args[k]) && args[k] in i.Args();
      if args[k].Result? && args[k].id in s {
        ResNotVariable(f, s, args[k]);
      }
    }
  }

  lemma {:induction false} DeletedPrefix(f: Func, s: Renaming, toDelete: set<nat>, b: Block, k: nat)
    requires f.HasTree() && f.Strict() && Resolves(f, s) && b in f.t && k <= |f.body[b]|
    requires forall id :: id in toDelete <==> IsPromotedAccess(f, id)
    ensures Without(RewriteAll(s, f.body[b][..k]), toDelete + f.prom) == Renamed(s, f.prom, f.body[b][..k])
    decreases k
  {
    hide Func.Strict, Resolves;
    if k > 0 {
      var code, i := f.body[b][..k - 1], f.body[b][k - 1];
      DeletedPrefix(f, s, toDelete, b, k - 1);
      assert f.body[b][..k] == code + [i];
      RenamedSnoc(s, f.prom, f.body[b], k - 1);
      assert RewriteAll(s, code + [i]) == RewriteAll(s, code) + [Rewrite(s, i)];
      WithoutSnoc(RewriteAll(s, code), Rewrite(s, i), toDelete + f.prom);
      DeletedIffPromoted(f, s, toDelete, b, k - 1);
    }
  }

  lemma DeletedIffPromoted(f: Func, s: Renaming, toDelete: set<nat>, b: Block, j: nat)
    requires f.HasTree() && f.Strict() && b in f.t && j < |f.body[b]|
    requires forall id :: id in toDelete <==> IsPromotedAccess(f, id)
    ensures var i, c := f.body[b][j], Rewrite(s, f.body[b][j]);
            i.Promoted(f.prom) <==> !c.Phi? && c.id in toDelete + f.prom
  {
    var i := f.body[b][j];
    assert f.At(b, j, i);
    if !i.Phi? {
      assert f.pos[i.id] == (b, j);
    }
  }

  /** What is left is the promoted form. */
  lemma DeletionComplete(f: Func, s: Renaming, toDelete: set<nat>)
    requires f.HasTree() && f.Strict() && Resolves(f, s)
    requires forall id :: id in toDelete <==> IsPromotedAccess(f, id)
    ensures forall b :: 0 <= b < |f.body| ==>
              WithoutAll(WithoutAll(RewriteBody(s, f.body), toDelete), f.prom)[b] == Renamed(s, f.prom, f.body[b])
  {
    WithoutMore(RewriteBody(s, f.body), toDelete, f.prom);
    forall b | 0 <= b < |f.body|
      ensures Without(RewriteAll(s, f.body[b]), toDelete + f.prom) == Renamed(s, f.prom, f.body[b])
    {
      DeletedPrefix(f, s, toDelete, b, |f.body[b]|);
      assert f.body[b][..|f.body[b]|] == f.body[b];
    }
  }

  // ----- the promoted program needs no cells -----

  lemma {:induction false} RenamedHasNoAccess(s: Renaming, prom: set<Slot>, code: seq<Instr>, i: Instr)
    requires i in Renamed(s, prom, code)
    ensures exists j :: 0 <= j < |code| && !code[j].Promoted(prom) && i == Rewrite(s, code[j])
    decreases |code|
  {
    var front := code[..|code| - 1];
    if i in Renamed(s, prom, front) {
      RenamedHasNoAccess(s, prom, front, i);
      var j :| 0 <= j < |front| && !front[j].Promoted(prom) && i == Rewrite(s, front[j]);
      assert code[j] == front[j];
    } else {
      assert i == Rewrite(s, code[|code| - 1]);
    }
  }

  lemma {:induction false} ExecWithoutCells(w: World, prom: set<Slot>, code: seq<Instr>, st: State)
    requires forall i :: i in code ==> !i.Promoted(prom)
    ensures ExecAll(w, {}, code, st) == ExecAll(w, prom, code, st)
    decreases |code|
  {
    if code != [] {
      assert code[|code| - 1] in code;
      ExecWithoutCells(w, prom, code[..|code| - 1], st);
    }
  }

  lemma NoAccessLeft(f: Func, s: Renaming, prog: Prog, b: Block)
    requires f.HasTree() && f.Strict() && IsPromotion(f, s, prog) && b in f.t
    ensures forall i :: i in prog.body[b] ==> !i.Promoted(f.prom)
  {
    forall i | i in prog.body[b]
      ensures !i.Promoted(f.prom)
    {
      RenamedHasNoAccess(s, f.prom, f.body[b], i);
      var j :| 0 <= j < |f.body[b]| && !f.body[b][j].Promoted(f.prom) && i == Rewrite(s, f.body[b][j]);
      if !f.body[b][j].Phi? {
        RewriteStaysOther(f, s, b, j);
      }
    }
  }

  lemma {:induction false} RunWithoutCells(f: Func, s: Renaming, prog: Prog, w: World, p: seq<Block>, b: Block)
    requires f.HasTree() && f.Strict() && IsPromotion(f, s, prog) && f.g.PathTo(p, b)
    ensures forall i :: 0 <= i < |p| ==> p[i] < |f.body|
    ensures RunPath(w, {}, prog, p) == RunPath(w, f.prom, prog, p)
    decreases |p|
  {
    hide Func.Strict, IsTree, Resolves, PhisFilled;
    InTree(f, p, b);
    if |p| > 1 {
      RunWithoutCells(f, s, prog, w, p[..|p| - 1], p[|p| - 2]);
    }
    NoAccessLeft(f, s, prog, b);
    ExecWithoutCells(w, f.prom, prog.body[b], EntryState(w, f.prom, prog, p));
  }

  /** Along walk `p` the promoted program, run without any cells, has the trace of the plain one. */
  ghost predicate SameTrace(prom: set<Slot>, plain: Body, prog: Prog, w: World, p: seq<Block>) {
    && |p| > 0 && (forall i :: 0 <= i < |p| ==> p[i] < |plain| && p[i] < |prog.body|)
    && RunPath(w, {}, prog, p).trace == RunPath(w, prom, Prog(plain, map[]), p).trace
  }

  lemma FinalResult(f: Func, s: Renaming, plain: Body, prog: Prog)
    requires Sound(f) && IsPlain(f, plain) && IsPromotion(f, s, prog)
    ensures forall w, p, b :: f.g.PathTo(p, b) ==> SameTrace(f.prom, plain, prog, w, p)
  {
    hide Func.Strict, Func.PhisPlaced, PostOrdered, Fixpoint, KeepsDominators;
    forall w, p, b | f.g.PathTo(p, b)
      ensures SameTrace(f.prom, plain, prog, w, p)
    {
      RunWithoutCells(f, s, prog, w, p, b);
      PromotionKeepsTrace(f, w, s, plain, prog, p, b);
    }
  }

  /** The variables that are only loaded and stored. */
  ghost function Promotable(plain: Body): (r: set<Slot>)
    ensures forall a :: a in r <==> IsAlloca(plain, a) && OnlyAccessed(plain, a)
  {
    var r := set b, k | 0 <= b < |plain| && 0 <= k < |plain[b]| && plain[b][k].Alloca? &&
                        OnlyAccessed(plain, plain[b][k].id) :: plain[b][k].id;
    assert forall a :: IsAlloca(plain, a) && OnlyAccessed(plain, a) ==> a in r;
    r
  }

  /** Some instruction does with the address of `a` something else than load from it or store to it. */
  ghost predicate Escaping(plain: Body, a: Slot) {
    exists b, k :: 0 <= b < |plain| && 0 <= k < |plain[b]| && EscapesIn(plain[b][k], a)
  }

  predicate EscapesIn(i: Instr, a: Slot) {
    Result(a) in i.Args() &&
    match i
    case Load(_, _) => false
    case Store(_, _, ptr) => ptr != Result(a)
    case _ => true
  }

  /** Of the allocations, exactly those whose address escapes stay. */
  ghost predicate EscapingStay(plain: Body, prog: Prog) {
    |prog.body| == |plain| &&
    forall b, a :: 0 <= b < |plain| ==> (Alloca(a) in prog.body[b] <==> Alloca(a) in plain[b] && Escaping(plain, a))
  }

  /** The other variables have a phi in a block exactly if it is in the iterated frontier of their stores. */
  ghost predicate PhisInFrontiers(df: Frontiers, plain: Body, prog: Prog) {
    forall a :: IsAlloca(plain, a) && !Escaping(plain, a) ==>
      LeastClosed(df, DefBlocks(plain, a), set b: Block | b in AllBlocks(|prog.body|) && Phi(b, a) in prog.body[b])
  }

  lemma OnlyAccessedIff(plain: Body, a: Slot)
    ensures OnlyAccessed(plain, a) <==> !Escaping(plain, a)
  {
    if !OnlyAccessed(plain, a) {
      var b, k :|
        0 <= b < |plain| && 0 <= k < |plain[b]| && Result(a) in plain[b][k].Args() && !plain[b][k].Accesses(a);
      assert EscapesIn(plain[b][k], a);
    }
  }

  lemma {:induction false} RenamedHas(s: Renaming, prom: set<Slot>, code: seq<Instr>, b: Block, a: Slot)
    ensures Alloca(a) in Renamed(s, prom, code) <==> Alloca(a) in code && a !in prom
    ensures Phi(b, a) in Renamed(s, prom, code) <==> Phi(b, a) in code
    decreases |code|
  {
    if code != [] {
      var front, last := code[..|code| - 1], code[|code| - 1];
      RenamedHas(s, prom, front, b, a);
      assert code == front + [last];
    }
  }

  lemma WhatStays(f: Func, s: Renaming, plain: Body, prog: Prog, df: Frontiers)
    requires Sound(f) && IsPlain(f, plain) && IsPromotion(f, s, prog)
    requires forall a :: a in f.prom <==> IsAlloca(plain, a) && OnlyAccessed(plain, a)
    requires forall a :: a in f.prom ==> LeastClosed(df, DefBlocks(plain, a), set b: Block | b in f.t && f.HasPhi(b, a))
    ensures EscapingStay(plain, prog) && PhisInFrontiers(df, plain, prog)
  {
    hide LeastClosed, OnlyAccessed, Escaping, Resolves, PhisFilled, Func.Strict, Func.PhisPlaced, PostOrdered, Fixpoint,
         KeepsDominators, DefBlocks;
    forall b, a | 0 <= b < |plain|
      ensures Alloca(a) in prog.body[b] <==> Alloca(a) in plain[b] && Escaping(plain, a)
    {
      RenamedHas(s, f.prom, f.body[b], b, a);
      AllocaInPlain(f, plain, b, a);
      OnlyAccessedIff(plain, a);
    }
    forall a | IsAlloca(plain, a) && !Escaping(plain, a)
      ensures LeastClosed(df, DefBlocks(plain, a), set b: Block | b in AllBlocks(|prog.body|) && Phi(b, a) in prog.body[b])
    {
      OnlyAccessedIff(plain, a);
      forall b: Block | b < |plain|
        ensures f.HasPhi(b, a) <==> Phi(b, a) in prog.body[b]
      {
        RenamedHas(s, f.prom, f.body[b], b, a);
      }
      assert (set b: Block | b in AllBlocks(|prog.body|) && Phi(b, a) in prog.body[b]) ==
             (set b: Block | b in f.t && f.HasPhi(b, a));
    }
  }

  /** Phis aside, the function with phis has the instructions of the plain one. */
  lemma AllocaInPlain(f: Func, plain: Body, b: nat, a: Slot)
    requires f.HasTree() && IsPlain(f, plain) && b < |plain|
    ensures Alloca(a) in f.body[b] <==> Alloca(a) in plain[b]
    ensures Alloca(a) in plain[b] ==> IsAlloca(plain, a)
  {
    var n := PhiCount(f.body[b]);
    assert f.body[b] == f.body[b][..n] + plain[b];
    if Alloca(a) in plain[b] {
      var k :| 0 <= k < |plain[b]| && plain[b][k] == Alloca(a);
    }
  }

  /** The analysis and the pass together: on every walk from the entry block, under every oracle, the promoted function
      does what the original does with a cell for each variable that is only loaded and stored. Of the allocations only
      those whose address escapes are left, and phis stand in the iterated frontiers only. */
  method PromoteFunction(g: Cfg, plain: Body, ghost pos: map<nat, (Block, nat)>)
      returns (prog: Prog, ghost df: Frontiers)
    requires g.Valid() && g.preds[ENTRY] == [] && forall b: Block :: b < g.Size() ==> g.Reachable(b)
    requires |plain| == g.Size() && DefinedBeforeUse(g, plain, pos)
    ensures forall w, p, b :: g.PathTo(p, b) ==> SameTrace(Promotable(plain), plain, prog, w, p)
    ensures forall a :: a in Promotable(plain) <==> IsAlloca(plain, a) && !Escaping(plain, a)
    ensures EscapingStay(plain, prog)
    ensures (forall b: Block :: b in df <==> b < g.Size()) && ExactFrontiers(g, df) && PhisInFrontiers(df, plain, prog)
  {
    hide DefinedBeforeUse, IsAlloca, OnlyAccessed, SameTrace, Sound, IsPlain, IsPromotion, LeastClosed, OperandPerEdge,
         ChildrenBelow, ExactFrontiers, IsImmediateDominator, Dominators.Computed, EscapingStay, PhisInFrontiers,
         Escaping;
    var dom := new Dominators(g);
    dom.Run();
    var pass := new Mem2Reg(dom, plain);
    ghost var f, s := pass.Run(pos);
    prog := Prog(pass.body, pass.incoming);
    assert f.prom == Promotable(plain);
    df := dom.domFrontier;
    WhatStays(f, s, plain, prog, df);
    forall a
      ensures a in Promotable(plain) <==> IsAlloca(plain, a) && !Escaping(plain, a)
    {
      OnlyAccessedIff(plain, a);
    }
  }
}
