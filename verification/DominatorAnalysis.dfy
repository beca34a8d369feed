/** The dominator analysis: reverse post-order, immediate dominators, dominance frontiers and the dominator
    tree of one function. */
module DominatorAnalysis {
  import opened Graphs
  import opened DomTrees
  import opened PostOrders

  class Dominators {
    const g: Cfg
    var reversePostOrder: seq<Block>
    var postOrderId: map<Block, nat>
    var idom: map<Block, Block>
    var domFrontier: map<Block, set<Block>>
    var domTreeSucc: map<Block, set<Block>>

    constructor (g: Cfg)
      ensures this.g == g
    {
      this.g := g;
      reversePostOrder, postOrderId, idom, domFrontier, domTreeSucc := [], map[], map[], map[], map[];
    }

    /** Visits every block reachable from `bb` over unvisited blocks; `stack` is the chain of callers. */
    method PostOrderVisit(bb: Block, visited: set<Block>, ghost stack: seq<Block>) returns (visited': set<Block>)
      requires g.Valid() && bb !in visited && g.PathTo(stack + [bb], bb)
      requires Walk(g, visited, stack, reversePostOrder, postOrderId)
      modifies this`reversePostOrder, this`postOrderId
      ensures Walk(g, visited', stack, reversePostOrder, postOrderId)
      ensures visited <= visited' && bb in postOrderId
      decreases Below(g.Size()) - visited
    {
      hide WalkOrder, Lists;
      Open(g, visited, stack, bb, reversePostOrder, postOrderId);
      visited' := visited + {bb};
      for i := 0 to |g.succs[bb]|
        invariant Walk(g, visited', stack + [bb], reversePostOrder, postOrderId)
        invariant visited + {bb} <= visited'
        invariant forall j :: 0 <= j < i ==> g.succs[bb][j] in visited'
      {
        var b := g.succs[bb][i];
        assert g.Edge(bb, b);
        if b !in visited' {
          PathExtend(g, stack + [bb], bb, b);
          visited' := PostOrderVisit(b, visited', stack + [bb]);
        }
      }
      Finish(g, visited', stack, bb, reversePostOrder, postOrderId);
      postOrderId := postOrderId[bb := |reversePostOrder|];
      reversePostOrder := reversePostOrder + [bb];
    }

    /** The list runs through the reachable blocks by falling post-order number. */
    ghost predicate InReversePostOrder()
      reads this`reversePostOrder, this`postOrderId
    {
      && |reversePostOrder| == |postOrderId|
      && (forall i :: 0 <= i < |reversePostOrder| ==>
            reversePostOrder[i] in postOrderId && postOrderId[reversePostOrder[i]] == |postOrderId| - 1 - i)
      && (forall x :: x in postOrderId ==> postOrderId[x] < |postOrderId| && reversePostOrder[|postOrderId| - 1 - postOrderId[x]] == x)
    }

    method CreateReversePostOrder()
      requires g.Valid()
      modifies this`reversePostOrder, this`postOrderId
      ensures PostOrdered(g, postOrderId) && InReversePostOrder()
    {
      reversePostOrder, postOrderId := [], map[];
      assert Walk(g, {}, [], [], map[]);
      assert g.PathTo([] + [ENTRY], ENTRY);
      var visited := PostOrderVisit(ENTRY, {}, []);
      WalkIsPostOrder(g, visited, reversePostOrder, postOrderId);
      var r := reversePostOrder;
      reversePostOrder := seq(|r|, i requires 0 <= i < |r| => r[|r| - 1 - i]);
    }

    /** Walks up from `b` while it is numbered below `target`. */
    method Climb(b: Block, target: Block) returns (r: Block)
      requires IsTree(idom, postOrderId) && b in idom && target in idom
      ensures r in idom && postOrderId[target] <= postOrderId[r]
      ensures r == b || (postOrderId[b] < postOrderId[r] && postOrderId[b] < postOrderId[target])
      ensures MeetOf(idom, postOrderId, r, target) == MeetOf(idom, postOrderId, b, target)
    {
      r := b;
      while postOrderId[r] < postOrderId[target]
        invariant r in idom && (r == b || (postOrderId[b] < postOrderId[r] && postOrderId[b] < postOrderId[target]))
        invariant MeetOf(idom, postOrderId, r, target) == MeetOf(idom, postOrderId, b, target)
        decreases |postOrderId| - postOrderId[r]
      {
        ClimbKeepsMeet(idom, postOrderId, r, target);
        r := Parent(idom, r);
      }
    }

    /** The lowest common ancestor of two processed blocks. */
    method Intersect(b1: Block, b2: Block) returns (r: Block)
      requires IsTree(idom, postOrderId) && b1 in idom && b2 in idom
      ensures r in idom
      ensures Anc(idom, postOrderId, r) == Anc(idom, postOrderId, b1) * Anc(idom, postOrderId, b2)
    {
      var c1, c2 := b1, b2;
      while c1 != c2
        invariant c1 in idom && c2 in idom
        invariant MeetOf(idom, postOrderId, c1, c2) == MeetOf(idom, postOrderId, b1, b2)
        decreases 2 * |postOrderId| - postOrderId[c1] - postOrderId[c2]
      {
        assert postOrderId[c1] != postOrderId[c2];
        c1 := Climb(c1, c2);
        MeetSymmetric(idom, postOrderId, c1, c2);
        ghost var d2 := c2;
        c2 := Climb(c2, c1);
        MeetSymmetric(idom, postOrderId, c1, c2);
      }
      r := c1;
    }

    /** The first predecessor of `bb` that already has a parent. */
    method FirstProcessed(bb: Block) returns (pred: Block)
      requires bb < |g.preds| && Processed(g, idom, bb) != {}
      ensures pred in Processed(g, idom, bb)
    {
      var i := 0;
      ghost var w :| w in Processed(g, idom, bb);
      while g.preds[bb][i] !in idom
        invariant 0 <= i < |g.preds[bb]| && w in g.preds[bb][i..]
        decreases |g.preds[bb]| - i
      {
        assert g.preds[bb][i..] == [g.preds[bb][i]] + g.preds[bb][i + 1..];
        i := i + 1;
      }
      pred := g.preds[bb][i];
    }

    /** The parent that the current tree gives `bb`: the meet of its processed predecessors. */
    method NewIdom(bb: Block) returns (newIdom: Block)
      requires IsTree(idom, postOrderId) && bb < |g.preds| && Processed(g, idom, bb) != {}
      ensures IsMeet(idom, postOrderId, Processed(g, idom, bb), newIdom)
    {
      hide IsMeet, Anc;
      var pred := FirstProcessed(bb);
      newIdom := pred;
      MeetSingle(idom, postOrderId, pred);
      ghost var ps := {pred};
      for i := 0 to |g.preds[bb]|
        invariant newIdom in idom && pred in ps && ps <= Processed(g, idom, bb)
        invariant forall j :: 0 <= j < i && g.preds[bb][j] in idom ==> g.preds[bb][j] in ps
        invariant IsMeet(idom, postOrderId, ps, newIdom)
      {
        var p := g.preds[bb][i];
        if p != pred && p in idom {
          ghost var before := newIdom;
          newIdom := Intersect(p, newIdom);
          MeetExtend(idom, postOrderId, ps, before, p, newIdom);
          ps := ps + {p};
        }
      }
      assert ps == Processed(g, idom, bb);
    }

    /** Immediate dominators by repeated passes in reverse post-order until nothing changes. Every pass but the first
        only moves blocks up the tree, so the set of (block, ancestor) pairs shrinks. */
    method CreateIdom()
      requires PostOrdered(g, postOrderId) && InReversePostOrder()
      modifies this`idom
      ensures Fixpoint(g, idom, postOrderId) && KeepsDominators(g, idom)
    {
      hide IsTree, PostOrdered, AllSettled, Fixpoint, InReversePostOrder, PassState, IsMeet, KeepsDominators, AncPairs;
      StartTree(g, postOrderId);
      idom := map[ENTRY := ENTRY];
      var changed := true;
      ghost var first := true;
      while changed
        invariant IsTree(idom, postOrderId) && KeepsDominators(g, idom)
        invariant first ==> changed && idom == map[ENTRY := ENTRY]
        invariant !first ==> idom.Keys == postOrderId.Keys && AllSettled(g, idom, postOrderId, 0)
        invariant !changed ==> Fixpoint(g, idom, postOrderId)
        decreases changed, first, AncPairs(idom, postOrderId)
      {
        ghost var s := idom;
        changed := false;
        BeginPass(g, s, postOrderId, first);
        ListedAll();
        for i := 0 to |reversePostOrder|
          invariant IsTree(idom, postOrderId) && KeepsDominators(g, idom)
          invariant PassState(g, s, idom, postOrderId, |reversePostOrder| - i, first, changed)
        {
          var bb := reversePostOrder[i];
          ListedAt(i);
          if bb == ENTRY {
            SkipEntry(g, s, idom, postOrderId, first, changed);
            continue;
          }
          HasProcessed(g, idom, postOrderId, bb, first, s, changed);
          var newIdom := NewIdom(bb);
          SetIdom(g, s, idom, postOrderId, bb, newIdom, first, changed);
          if bb !in idom || idom[bb] != newIdom {
            idom := idom[bb := newIdom];
            changed := true;
          } else {
            assert idom[bb := newIdom] == idom;
          }
        }
        PassEnds(g, s, idom, postOrderId, first, changed);
        first := false;
      }
    }

    /** The analysis knows the parent of every block of the function. */
    ghost predicate Computed()
      reads this`postOrderId, this`idom
    {
      && PostOrdered(g, postOrderId) && Fixpoint(g, idom, postOrderId) && KeepsDominators(g, idom)
      && (forall b: Block :: b in idom <==> b < g.Size())
    }

    /** Adds `bb` to the frontier of every block from `p` up to, not including, the parent of `bb`. */
    method RunUp(p: Block, bb: Block)
      requires IsTree(idom, postOrderId) && p in idom && bb in idom
      requires Parent(idom, bb) in Anc(idom, postOrderId, p)
      requires domFrontier.Keys == idom.Keys
      modifies this`domFrontier
      ensures domFrontier.Keys == idom.Keys
      ensures forall x, b: Block :: x in domFrontier ==>
                (b in domFrontier[x] <==>
                 b in old(domFrontier)[x] || (b == bb && OnTheWay(idom, postOrderId, p, bb, x)))
    {
      hide IsTree;
      var runner := p;
      while runner != idom[bb]
        invariant runner in idom && domFrontier.Keys == idom.Keys
        invariant Parent(idom, bb) in Anc(idom, postOrderId, runner)
        invariant Anc(idom, postOrderId, runner) <= Anc(idom, postOrderId, p)
        invariant forall x, b: Block :: x in domFrontier ==>
                    (b in domFrontier[x] <==>
                     b in old(domFrontier)[x] ||
                     (b == bb && x in Anc(idom, postOrderId, p) && x !in Anc(idom, postOrderId, runner)))
        decreases Anc(idom, postOrderId, runner)
      {
        RunnerStep(idom, postOrderId, runner, Parent(idom, bb));
        domFrontier := domFrontier[runner := domFrontier[runner] + {bb}];
        runner := Parent(idom, runner);
      }
    }

    /** Runs up from every predecessor of `bb`. */
    method AddFrontiersOf(bb: Block)
      requires Computed() && bb in idom && domFrontier.Keys == idom.Keys
      modifies this`domFrontier
      ensures domFrontier.Keys == idom.Keys
      ensures forall x, b :: x in domFrontier ==>
                (b in domFrontier[x] <==>
                 b in old(domFrontier)[x] || (b == bb && RunnersReach(g, idom, postOrderId, bb, |g.preds[bb]|, x)))
    {
      hide Computed, IsTree, OnTheWay;
      ComputedTree();
      for i := 0 to |g.preds[bb]|
        invariant domFrontier.Keys == idom.Keys
        invariant forall x, b :: x in domFrontier ==>
                    (b in domFrontier[x] <==>
                     b in old(domFrontier)[x] || (b == bb && RunnersReach(g, idom, postOrderId, bb, i, x)))
      {
        var p := g.preds[bb][i];
        ComputedEdge(p, bb);
        RunUp(p, bb);
        RunnersReachNext(g, idom, postOrderId, bb, i);
      }
    }

    /** Dominance frontiers, exact unless the entry block has a predecessor. */
    method CreateDominanceFrontier()
      requires Computed()
      requires domFrontier.Keys == idom.Keys && forall x :: x in domFrontier ==> domFrontier[x] == {}
      modifies this`domFrontier
      ensures domFrontier.Keys == idom.Keys
      ensures g.preds[ENTRY] == [] <==> ExactFrontiers(g, domFrontier)
    {
      hide Computed, IsTree, OnTheWay, RunnersReach;
      ComputedTree();
      for bb := 0 to g.Size()
        invariant domFrontier.Keys == idom.Keys
        invariant FrontiersBelow(g, idom, postOrderId, domFrontier, bb)
      {
        if |g.preds[bb]| >= 2 {
          AddFrontiersOf(bb);
        }
      }
      FrontierExact();
      assert g.preds[ENTRY] != [] ==> ENTRY in domFrontier && ENTRY !in domFrontier[ENTRY];
    }

    /** The children of each block. */
    method CreateDomTreeSucc()
      requires forall b: Block :: b in idom <==> b < g.Size()
      requires ParentsInside(idom)
      requires domTreeSucc.Keys == idom.Keys && forall x :: x in domTreeSucc ==> domTreeSucc[x] == {}
      modifies this`domTreeSucc
      ensures domTreeSucc.Keys == idom.Keys
      ensures ChildrenBelow(idom, domTreeSucc, g.Size())
    {
      for bb := 0 to g.Size()
        invariant domTreeSucc.Keys == idom.Keys
        invariant ChildrenBelow(idom, domTreeSucc, bb)
      {
        var parent := Parent(idom, bb);
        if parent != bb {
          AddChild(idom, domTreeSucc, bb);
          domTreeSucc := domTreeSucc[parent := domTreeSucc[parent] + {bb}];
        }
      }
    }

    method Run()
      requires g.Valid() && forall b: Block :: b < g.Size() ==> g.Reachable(b)
      modifies this
      ensures Computed()
      ensures forall b: Block :: b in idom <==> b < g.Size()
      ensures domFrontier.Keys == idom.Keys && domTreeSucc.Keys == idom.Keys
      ensures idom[ENTRY] == ENTRY
      ensures forall b :: b in idom && b != ENTRY ==> IsImmediateDominator(g, idom[b], b)
      ensures g.preds[ENTRY] == [] <==> ExactFrontiers(g, domFrontier)
      ensures ChildrenBelow(idom, domTreeSucc, g.Size())
    {
      hide PostOrdered, Fixpoint, KeepsDominators, IsImmediateDominator, ExactFrontiers;
      CreateReversePostOrder();
      CreateIdom();
      AllComputed();
      ParentsImmediate();
      domFrontier, domTreeSucc := map b | b in idom :: {}, map b | b in idom :: {};
      CreateDominanceFrontier();
      CreateDomTreeSucc();
    }

    lemma AllComputed()
      requires PostOrdered(g, postOrderId) && Fixpoint(g, idom, postOrderId) && KeepsDominators(g, idom)
      requires forall b: Block :: b < g.Size() ==> g.Reachable(b)
      ensures Computed() && idom[ENTRY] == ENTRY
      ensures ParentsInside(idom)
    {
      forall b | b in idom
        ensures Parent(idom, b) in idom
      {
      }
      forall b: Block
        ensures b in idom <==> b < g.Size()
      {
        if g.Reachable(b) {
          var p :| g.PathTo(p, b);
        }
      }
    }

    lemma ComputedTree()
      requires Computed()
      ensures g.Valid() && IsTree(idom, postOrderId)
      ensures forall b: Block :: b in idom <==> b < g.Size()
      ensures ParentsInside(idom)
    {
      forall b | b in idom
        ensures Parent(idom, b) in idom
      {
      }
    }

    lemma ComputedEdge(p: Block, bb: Block)
      requires Computed() && bb < g.Size() && p in g.preds[bb]
      ensures p in idom && Parent(idom, bb) in Anc(idom, postOrderId, p)
    {
      assert g.Edge(p, bb);
      if bb == ENTRY {
        RootIsAnc(idom, postOrderId, p);
      } else {
        var n := Parent(idom, bb);
        assert AtMeet(g, idom, postOrderId, bb);
        assert n in Anc(idom, postOrderId, n);
        assert Common(idom, postOrderId, Processed(g, idom, bb), n);
      }
    }

    lemma FrontierExact()
      requires Computed()
      ensures g.preds[ENTRY] == [] ==>
                forall x, b: Block :: x in idom && b in idom ==>
                  (FoundByRunners(g, idom, postOrderId, b, x) <==> g.InFrontier(x, b))
      ensures g.preds[ENTRY] != [] ==>
                g.InFrontier(ENTRY, ENTRY) && !FoundByRunners(g, idom, postOrderId, ENTRY, ENTRY)
    {
      if g.preds[ENTRY] == [] {
        forall x, b: Block | x in idom && b in idom
          ensures FoundByRunners(g, idom, postOrderId, b, x) <==> g.InFrontier(x, b)
        {
          FrontierFound(x, b);
        }
      } else {
        var p := g.preds[ENTRY][0];
        EntryDominatesAll(g, p);
        assert p in g.preds[ENTRY];
      }
    }

    lemma StrictByTree(x: Block, b: Block)
      requires Computed() && b in idom && b != ENTRY
      ensures g.StrictlyDominates(x, b) <==> x in Anc(idom, postOrderId, Parent(idom, b))
    {
      AncestorsAreDominators(g, idom, postOrderId, b, x);
      if b in Anc(idom, postOrderId, Parent(idom, b)) {
        AncAbove(idom, postOrderId, Parent(idom, b), b);
      }
    }

    lemma FrontierPreds(x: Block, b: Block)
      requires Computed() && b in idom
      ensures forall p :: p in g.preds[b] ==>
                p in idom && (x in Anc(idom, postOrderId, p) <==> g.Dominates(x, p))
    {
      hide PostOrdered, Fixpoint, KeepsDominators;
      ComputedTree();
      forall p | p in g.preds[b]
        ensures p in idom && (x in Anc(idom, postOrderId, p) <==> g.Dominates(x, p))
      {
        ComputedEdge(p, b);
        AncestorsAreDominators(g, idom, postOrderId, p, x);
      }
    }

    /** With a single predecessor there is nothing for a runner to pass. */
    lemma SinglePred(x: Block, b: Block)
      requires Computed() && x in idom && b in idom && b != ENTRY && |g.preds[b]| == 1
      requires g.preds[b][0] in idom && x in Anc(idom, postOrderId, g.preds[b][0])
      ensures x in Anc(idom, postOrderId, Parent(idom, b))
    {
      assert AtMeet(g, idom, postOrderId, b);
      assert Processed(g, idom, b) == {g.preds[b][0]};
      assert Common(idom, postOrderId, Processed(g, idom, b), x);
    }

    lemma FrontierFound(x: Block, b: Block)
      requires Computed() && x in idom && b in idom && g.preds[ENTRY] == []
      ensures FoundByRunners(g, idom, postOrderId, b, x) <==> g.InFrontier(x, b)
    {
      hide PostOrdered, Fixpoint, KeepsDominators, Anc;
      ComputedTree();
      if b != ENTRY {
        StrictByTree(x, b);
        FrontierPreds(x, b);
        if g.InFrontier(x, b) {
          var p :| p in g.preds[b] && g.Dominates(x, p);
          var k :| 0 <= k < |g.preds[b]| && g.preds[b][k] == p;
          if |g.preds[b]| == 1 {
            SinglePred(x, b);
          }
          assert OnTheWay(idom, postOrderId, g.preds[b][k], b, x);
        }
      }
    }

    /** Each parent is the immediate dominator. */
    lemma ParentsImmediate()
      requires PostOrdered(g, postOrderId) && Fixpoint(g, idom, postOrderId) && KeepsDominators(g, idom)
      ensures forall b :: b in idom && b != ENTRY ==> IsImmediateDominator(g, idom[b], b)
    {
      forall b | b in idom && b != ENTRY
        ensures IsImmediateDominator(g, idom[b], b)
      {
        var n := Parent(idom, b);
        assert n in Anc(idom, postOrderId, n);
        assert n in Anc(idom, postOrderId, b);
        AncestorsAreDominators(g, idom, postOrderId, b, n);
        assert postOrderId[b] < postOrderId[n];
      }
    }

    lemma ListedAll()
      requires InReversePostOrder()
      ensures |reversePostOrder| == |postOrderId|
    {
    }

    lemma ListedAt(i: nat)
      requires InReversePostOrder() && i < |reversePostOrder|
      ensures |reversePostOrder| == |postOrderId|
      ensures reversePostOrder[i] in postOrderId && postOrderId[reversePostOrder[i]] == |reversePostOrder| - 1 - i
    {
    }
  }

  /** `n` strictly dominates `b`, and every strict dominator of `b` dominates `n`. */
  ghost predicate IsImmediateDominator(g: Cfg, n: Block, b: Block) {
    g.StrictlyDominates(n, b) && forall d :: g.StrictlyDominates(d, b) ==> g.Dominates(d, n)
  }

  lemma AddChild(idom: Tree, succ: map<Block, set<Block>>, bb: Block)
    requires bb in idom && Parent(idom, bb) in succ && Parent(idom, bb) != bb && ChildrenBelow(idom, succ, bb)
    ensures ChildrenBelow(idom, succ[Parent(idom, bb) := succ[Parent(idom, bb)] + {bb}], bb + 1)
  {
  }

  ghost predicate ParentsInside(t: Tree) {
    forall b {:trigger Parent(t, b)} :: b in t ==> Parent(t, b) in t
  }

  ghost predicate ExactFrontiers(g: Cfg, df: map<Block, set<Block>>)
    requires g.Valid()
  {
    forall x, b :: x in df ==> (b in df[x] <==> g.InFrontier(x, b))
  }

  /** `succ` lists the children of each block, as far as they are numbered below `n`. */
  ghost predicate ChildrenBelow(idom: Tree, succ: map<Block, set<Block>>, n: nat) {
    forall x, b :: x in succ ==> (b in succ[x] <==> b < n && b in idom && b != x && idom[b] == x)
  }

  /** `x` is one of the blocks from `p` up to, not including, the parent of `b`. */
  ghost predicate OnTheWay(t: Tree, post: Numbering, p: Block, b: Block, x: Block)
    requires IsTree(t, post) && p in t && b in t && Parent(t, b) in t
  {
    x in Anc(t, post, p) && x !in Anc(t, post, Parent(t, b))
  }

  /** One of the runners from the first `i` predecessors of `b` passes `x`. */
  ghost predicate RunnersReach(g: Cfg, t: Tree, post: Numbering, b: Block, i: nat, x: Block)
    requires IsTree(t, post)
  {
    b < |g.preds| && b in t && Parent(t, b) in t && i <= |g.preds[b]| &&
    exists k :: 0 <= k < i && g.preds[b][k] in t && OnTheWay(t, post, g.preds[b][k], b, x)
  }

  ghost predicate FoundByRunners(g: Cfg, t: Tree, post: Numbering, b: Block, x: Block)
    requires IsTree(t, post)
  {
    b < |g.preds| && |g.preds[b]| >= 2 && RunnersReach(g, t, post, b, |g.preds[b]|, x)
  }

  ghost predicate FrontiersBelow(g: Cfg, t: Tree, post: Numbering, df: map<Block, set<Block>>, n: nat)
    requires IsTree(t, post)
  {
    forall x, b: Block :: x in df ==> (b in df[x] <==> b < n && FoundByRunners(g, t, post, b, x))
  }

  lemma RunnersReachNext(g: Cfg, t: Tree, post: Numbering, b: Block, i: nat)
    requires IsTree(t, post) && b < |g.preds| && b in t && Parent(t, b) in t
    requires i < |g.preds[b]| && g.preds[b][i] in t
    ensures forall x :: RunnersReach(g, t, post, b, i + 1, x) <==>
                        RunnersReach(g, t, post, b, i, x) || OnTheWay(t, post, g.preds[b][i], b, x)
  {
  }

  /** One step of a runner that has not reached `top` yet. */
  lemma RunnerStep(t: Tree, post: Numbering, r: Block, top: Block)
    requires IsTree(t, post) && r in t && top in Anc(t, post, r) && r != top
    ensures r != ENTRY && Parent(t, r) in t
    ensures Anc(t, post, r) == Anc(t, post, Parent(t, r)) + {r} && r !in Anc(t, post, Parent(t, r))
    ensures top in Anc(t, post, Parent(t, r))
  {
    if r in Anc(t, post, Parent(t, r)) {
      AncAbove(t, post, Parent(t, r), r);
    }
  }

  /** The first pass with `k` blocks to go: exactly the blocks before have parents. */
  ghost predicate FirstPass(g: Cfg, t: Tree, post: Numbering, k: nat, changed: bool)
    requires IsTree(t, post)
  {
    && AllSettled(g, t, post, 0)
    && (forall x :: x in post && k <= post[x] ==> x in t)
    && (forall x :: x in t ==> x == ENTRY || k <= post[x])
    && (!changed ==> t == map[ENTRY := ENTRY])
  }

  /** A later pass with `k` blocks to go: the blocks before are settled, and if nothing has changed yet they have the
      parents that recomputing gives. */
  ghost predicate LaterPass(g: Cfg, s: Tree, t: Tree, post: Numbering, k: nat, changed: bool) {
    && InPass(g, s, t, post, k)
    && AllSettled(g, s, post, 0)
    && AncPairs(t, post) <= AncPairs(s, post)
    && (changed ==> AncPairs(t, post) < AncPairs(s, post))
    && (!changed ==> t == s && StillMeets(g, t, post, k))
  }

  ghost predicate PassState(g: Cfg, s: Tree, t: Tree, post: Numbering, k: nat, first: bool, changed: bool)
    requires IsTree(t, post)
  {
    if first then FirstPass(g, t, post, k, changed) else LaterPass(g, s, t, post, k, changed)
  }

  ghost predicate StillMeets(g: Cfg, t: Tree, post: Numbering, k: nat)
    requires IsTree(t, post)
  {
    forall c {:trigger AtMeet(g, t, post, c)} :: c in t && c != ENTRY && k <= post[c] ==> AtMeet(g, t, post, c)
  }

  ghost function MeetOf(t: Tree, post: Numbering, a: Block, b: Block): set<Block>
    requires IsTree(t, post) && a in t && b in t
  {
    Anc(t, post, a) * Anc(t, post, b)
  }

  lemma MeetSymmetric(t: Tree, post: Numbering, a: Block, b: Block)
    requires IsTree(t, post) && a in t && b in t
    ensures MeetOf(t, post, a, b) == MeetOf(t, post, b, a)
  {
  }

  lemma ClimbKeepsMeet(t: Tree, post: Numbering, a: Block, b: Block)
    requires IsTree(t, post) && a in t && b in t && post[a] < post[b]
    ensures a != ENTRY && Parent(t, a) in t && post[a] < post[Parent(t, a)]
    ensures MeetOf(t, post, Parent(t, a), b) == MeetOf(t, post, a, b)
  {
    RootIsAnc(t, post, b);
    AncAbove(t, post, b, ENTRY);
    if a in Anc(t, post, b) {
      AncAbove(t, post, b, a);
    }
  }

  lemma MeetSingle(t: Tree, post: Numbering, p: Block)
    requires IsTree(t, post) && p in t
    ensures IsMeet(t, post, {p}, p)
  {
  }

  lemma MeetExtend(t: Tree, post: Numbering, ps: set<Block>, n: Block, p: Block, m: Block)
    requires IsTree(t, post) && ps <= t.Keys && IsMeet(t, post, ps, n) && p in t && m in t
    requires Anc(t, post, m) == Anc(t, post, p) * Anc(t, post, n)
    ensures IsMeet(t, post, ps + {p}, m)
  {
    forall y
      ensures y in Anc(t, post, m) <==> Common(t, post, ps + {p}, y)
    {
      if Common(t, post, ps + {p}, y) {
        assert Common(t, post, ps, y);
        assert p in ps + {p};
      }
    }
  }

  lemma StartTree(g: Cfg, post: Numbering)
    requires PostOrdered(g, post)
    ensures IsTree(map[ENTRY := ENTRY], post) && KeepsDominators(g, map[ENTRY := ENTRY])
    ensures FirstPass(g, map[ENTRY := ENTRY], post, |post|, false)
  {
    EntryReachable(g);
  }

  lemma BeginPass(g: Cfg, t: Tree, post: Numbering, first: bool)
    requires PostOrdered(g, post) && IsTree(t, post)
    requires first ==> t == map[ENTRY := ENTRY]
    requires !first ==> t.Keys == post.Keys && AllSettled(g, t, post, 0)
    ensures PassState(g, t, t, post, |post|, first, false)
  {
    StartTree(g, post);
    if !first {
      PassStarts(g, t, post);
    }
  }

  /** The entry block has nothing to settle. */
  lemma SkipEntrySettled(g: Cfg, t: Tree, post: Numbering)
    requires ENTRY in post && IsTree(t, post)
    ensures AllSettled(g, t, post, post[ENTRY] + 1) ==> AllSettled(g, t, post, post[ENTRY])
    ensures StillMeets(g, t, post, post[ENTRY] + 1) ==> StillMeets(g, t, post, post[ENTRY])
  {
    hide Settled, IsMeet;
    assert forall c :: c in post && c != ENTRY && post[ENTRY] <= post[c] ==> post[ENTRY] + 1 <= post[c];
  }

  lemma SkipEntry(g: Cfg, s: Tree, t: Tree, post: Numbering, first: bool, changed: bool)
    requires ENTRY in post && IsTree(t, post)
    requires PassState(g, s, t, post, post[ENTRY] + 1, first, changed)
    ensures PassState(g, s, t, post, post[ENTRY], first, changed)
  {
    hide AllSettled, KeepsOrder, Shrunk, StillMeets;
    SkipEntrySettled(g, t, post);
    assert forall c :: c in post && c != ENTRY && post[ENTRY] <= post[c] ==> post[ENTRY] + 1 <= post[c];
  }

  lemma HasProcessed(g: Cfg, t: Tree, post: Numbering, c: Block, first: bool, s: Tree, changed: bool)
    requires PostOrdered(g, post) && IsTree(t, post) && c in post && c != ENTRY
    requires PassState(g, s, t, post, post[c] + 1, first, changed)
    ensures c < |g.preds|
    ensures exists q :: q in Processed(g, t, c) && post[c] < post[q]
  {
    assert MetEarlier(g, post, c);
    var q :| g.Edge(q, c) && q in post && post[c] < post[q];
    assert g.Reachable(c);
    assert q in g.preds[c];
    assert q in Processed(g, t, c);
  }

  lemma SetKeepsDominators(g: Cfg, t: Tree, post: Numbering, c: Block, n: Block)
    requires PostOrdered(g, post) && IsTree(t, post) && KeepsDominators(g, t)
    requires c < |g.preds| && Processed(g, t, c) != {} && IsMeet(t, post, Processed(g, t, c), n)
    ensures KeepsDominators(g, t[c := n])
  {
    forall d | g.StrictlyDominates(d, c)
      ensures g.Dominates(d, n)
    {
      forall p | p in Processed(g, t, c)
        ensures g.Dominates(d, p)
      {
        assert g.Edge(p, c);
        StrictDominatorOfPred(g, d, p, c);
      }
      MeetIsDominated(g, t, post, Processed(g, t, c), n, d);
    }
    forall x, d | x in t[c := n] && x != ENTRY && g.StrictlyDominates(d, x)
      ensures g.Dominates(d, Parent(t[c := n], x))
    {
      if x != c {
        assert Parent(t[c := n], x) == Parent(t, x);
      }
    }
  }

  /** Setting the parent of one block, in either kind of pass. */
  lemma SetIdom(g: Cfg, s: Tree, t: Tree, post: Numbering, c: Block, n: Block, first: bool, changed: bool)
    requires PostOrdered(g, post) && IsTree(t, post) && KeepsDominators(g, t)
    requires c in post && c != ENTRY && c < |g.preds|
    requires exists q :: q in Processed(g, t, c) && post[c] < post[q]
    requires IsMeet(t, post, Processed(g, t, c), n)
    requires PassState(g, s, t, post, post[c] + 1, first, changed)
    ensures IsTree(t[c := n], post) && KeepsDominators(g, t[c := n])
    ensures PassState(g, s, t[c := n], post, post[c], first, changed || c !in t || t[c] != n)
  {
    SetKeepsDominators(g, t, post, c, n);
    if first {
      SetInFirstPass(g, t, post, c, n, changed);
    } else {
      SetInLaterPass(g, s, t, post, c, n, changed);
    }
  }

  lemma MeetAbove(t: Tree, post: Numbering, ps: set<Block>, n: Block, q: Block)
    requires IsTree(t, post) && ps <= t.Keys && IsMeet(t, post, ps, n) && q in ps
    ensures n in t && post[q] <= post[n]
  {
    assert n in Anc(t, post, n);
    assert Common(t, post, ps, n);
    AncAbove(t, post, q, n);
  }

  lemma SetInFirstPass(g: Cfg, t: Tree, post: Numbering, c: Block, n: Block, changed: bool)
    requires IsTree(t, post) && c in post && c != ENTRY && c < |g.preds|
    requires exists q :: q in Processed(g, t, c) && post[c] < post[q]
    requires IsMeet(t, post, Processed(g, t, c), n)
    requires FirstPass(g, t, post, post[c] + 1, changed)
    ensures c !in t && IsTree(t[c := n], post) && FirstPass(g, t[c := n], post, post[c], true)
  {
    hide AllSettled, IsMeet;
    var q :| q in Processed(g, t, c) && post[c] < post[q];
    MeetAbove(t, post, Processed(g, t, c), n, q);
    FirstPassStep(g, t, post, c, n, q);
  }

  /** A block that keeps its parent was already the meet. */
  lemma SetSame(g: Cfg, t: Tree, post: Numbering, c: Block)
    requires IsTree(t, post) && c in t && c != ENTRY && c < |g.preds|
    requires IsMeet(t, post, Processed(g, t, c), Parent(t, c))
    requires StillMeets(g, t, post, post[c] + 1)
    ensures t[c := Parent(t, c)] == t
    ensures StillMeets(g, t, post, post[c])
  {
    hide IsMeet;
    forall d | d in t && d != ENTRY && post[c] <= post[d]
      ensures AtMeet(g, t, post, d)
    {
    }
  }

  lemma MoveShrinksPairs(t: Tree, post: Numbering, c: Block, n: Block)
    requires IsTree(t, post) && c in t && c != ENTRY && n in Anc(t, post, Parent(t, c))
    ensures IsTree(t[c := n], post)
    ensures AncPairs(t[c := n], post) <= AncPairs(t, post)
    ensures n != Parent(t, c) ==> AncPairs(t[c := n], post) < AncPairs(t, post)
  {
    AncMove(t, post, c, n, c);
    forall x | x in t
      ensures Anc(t[c := n], post, x) <= Anc(t, post, x)
    {
      AncMoveShrinks(t, post, c, n, x);
    }
    assert t[c := n].Keys == t.Keys;
    PairsShrink(t, t[c := n], post);
  }

  lemma SettledAt(g: Cfg, t: Tree, post: Numbering, c: Block)
    requires IsTree(t, post) && c in t && c != ENTRY && c < |g.preds| && AllSettled(g, t, post, 0)
    ensures Settled(g, t, post, c)
  {
  }

  lemma SetInLaterPass(g: Cfg, s: Tree, t: Tree, post: Numbering, c: Block, n: Block, changed: bool)
    requires IsTree(t, post) && c in post && c != ENTRY && c < |g.preds|
    requires IsMeet(t, post, Processed(g, t, c), n)
    requires LaterPass(g, s, t, post, post[c] + 1, changed)
    ensures c in t && IsTree(t[c := n], post)
    ensures LaterPass(g, s, t[c := n], post, post[c], changed || Parent(t, c) != n)
  {
    hide AllSettled, KeepsOrder, Shrunk, PendingSame, IsMeet, StillMeets, AncPairs;
    SettledAt(g, s, post, c);
    PassStep(g, s, t, post, c, n);
    MoveShrinksPairs(t, post, c, n);
    if Parent(t, c) == n && !changed {
      SetSame(g, t, post, c);
    }
  }

  lemma PassEnds(g: Cfg, s: Tree, t: Tree, post: Numbering, first: bool, changed: bool)
    requires PostOrdered(g, post) && IsTree(t, post)
    requires PassState(g, s, t, post, 0, first, changed)
    ensures t.Keys == post.Keys && AllSettled(g, t, post, 0)
    ensures !changed ==> Fixpoint(g, t, post)
    ensures !first && changed ==> AncPairs(t, post) < AncPairs(s, post)
  {
    hide Anc, AncPairs;
  }
}
