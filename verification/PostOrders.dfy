/** What a depth-first walk knows while it is under way: the facts about the blocks it has finished, given the
    blocks that are still open on its stack. */
module PostOrders {
  import opened Graphs
  import opened DomTrees

  /** `d` is still open, or was finished after `x`. */
  ghost predicate Later(post: Numbering, stack: seq<Block>, d: Block, x: Block)
    requires x in post
  {
    d in stack || (d in post && post[x] < post[d])
  }

  ghost predicate ParentLater(g: Cfg, post: Numbering, stack: seq<Block>, x: Block)
    requires x in post
  {
    exists q :: g.Edge(q, x) && Later(post, stack, q, x)
  }

  /** `order` lists the finished blocks and `post` is its inverse. */
  ghost predicate Lists(order: seq<Block>, post: Numbering) {
    && |order| == |post|
    && (forall i :: 0 <= i < |order| ==> order[i] in post && post[order[i]] == i)
    && (forall x :: x in post ==> post[x] < |order| && order[post[x]] == x)
  }

  /** Which blocks are finished, open and untouched. */
  ghost predicate WalkSets(g: Cfg, visited: set<Block>, stack: seq<Block>, order: seq<Block>, post: Numbering) {
    && Lists(order, post)
    && visited <= Below(g.Size())
    && (forall x :: x in visited <==> x in post || x in stack)
    && (forall x :: x in stack ==> x !in post)
    && (forall x :: x in post ==> g.Reachable(x))
    && (forall x, y :: x in post && g.Edge(x, y) ==> y in visited)
  }

  /** Dominators, and some predecessor, of a finished block are still open or finished later. */
  ghost predicate WalkOrder(g: Cfg, stack: seq<Block>, post: Numbering) {
    && (forall x, d {:trigger g.StrictlyDominates(d, x)} {:trigger Later(post, stack, d, x)} ::
          x in post && g.StrictlyDominates(d, x) ==> Later(post, stack, d, x))
    && (forall x {:trigger ParentLater(g, post, stack, x)} :: x in post && x != ENTRY ==> ParentLater(g, post, stack, x))
  }

  ghost predicate Walk(g: Cfg, visited: set<Block>, stack: seq<Block>, order: seq<Block>, post: Numbering) {
    WalkSets(g, visited, stack, order, post) && WalkOrder(g, stack, post)
  }

  lemma FinishLists(order: seq<Block>, post: Numbering, bb: Block)
    requires Lists(order, post) && bb !in post
    ensures Lists(order + [bb], post[bb := |order|])
  {
    assert post[bb := |order|].Keys == post.Keys + {bb};
  }

  lemma FinishLater(post: Numbering, stack: seq<Block>, bb: Block, n: nat, d: Block, x: Block)
    requires x in post && x != bb && post[x] < n && bb !in post && Later(post, stack + [bb], d, x)
    ensures Later(post[bb := n], stack, d, x)
  {
  }

  lemma FinishOrder(g: Cfg, stack: seq<Block>, bb: Block, post: Numbering, n: nat)
    requires WalkOrder(g, stack + [bb], post)
    requires g.PathTo(stack + [bb], bb) && bb !in post
    requires forall x :: x in post ==> post[x] < n
    ensures WalkOrder(g, stack, post[bb := n])
  {
    forall x, d | (x in post || x == bb) && g.StrictlyDominates(d, x)
      ensures Later(post[bb := n], stack, d, x)
    {
      if x == bb {
        assert d in stack + [bb];
      } else {
        FinishLater(post, stack, bb, n, d, x);
      }
    }
    forall x | (x in post || x == bb) && x != ENTRY
      ensures ParentLater(g, post[bb := n], stack, x)
    {
      if x == bb {
        var q := (stack + [bb])[|stack| - 1];
        assert g.Edge(q, bb) && q in stack;
      } else {
        assert ParentLater(g, post, stack + [bb], x);
        var q :| g.Edge(q, x) && Later(post, stack + [bb], q, x);
        FinishLater(post, stack, bb, n, q, x);
      }
    }
  }

  /** Closing the block on top of the stack. */
  lemma Finish(g: Cfg, visited: set<Block>, stack: seq<Block>, bb: Block, order: seq<Block>, post: Numbering)
    requires g.Valid() && Walk(g, visited, stack + [bb], order, post)
    requires g.PathTo(stack + [bb], bb) && bb !in stack
    requires forall y :: g.Edge(bb, y) ==> y in visited
    ensures Walk(g, visited, stack, order + [bb], post[bb := |order|])
  {
    assert bb in stack + [bb];
    FinishLists(order, post, bb);
    FinishOrder(g, stack, bb, post, |order|);
    assert g.Reachable(bb);
  }

  /** Opening a block. */
  lemma Open(g: Cfg, visited: set<Block>, stack: seq<Block>, bb: Block, order: seq<Block>, post: Numbering)
    requires g.Valid() && Walk(g, visited, stack, order, post)
    requires bb !in visited && bb < g.Size()
    ensures Walk(g, visited + {bb}, stack + [bb], order, post)
  {
    forall x | x in post && x != ENTRY
      ensures ParentLater(g, post, stack + [bb], x)
    {
      assert ParentLater(g, post, stack, x);
      var q :| g.Edge(q, x) && Later(post, stack, q, x);
      assert Later(post, stack + [bb], q, x);
    }
  }

  lemma {:induction false} WalkReachesAll(g: Cfg, visited: set<Block>, order: seq<Block>, post: Numbering,
                                          p: seq<Block>, b: Block)
    requires g.Valid() && Walk(g, visited, [], order, post) && ENTRY in post
    requires g.PathTo(p, b)
    ensures b in post
    decreases |p|
  {
    if |p| > 1 {
      WalkReachesAll(g, visited, order, post, p[..|p| - 1], p[|p| - 2]);
    }
  }

  /** A finished walk numbers the reachable blocks in post-order. */
  lemma WalkIsPostOrder(g: Cfg, visited: set<Block>, order: seq<Block>, post: Numbering)
    requires g.Valid() && Walk(g, visited, [], order, post) && ENTRY in post
    ensures PostOrdered(g, post)
  {
    forall x
      ensures x in post <==> g.Reachable(x)
    {
      if g.Reachable(x) {
        var p :| g.PathTo(p, x);
        WalkReachesAll(g, visited, order, post, p, x);
      }
    }
    forall c, d | c in post && g.StrictlyDominates(d, c)
      ensures d in post && post[c] < post[d]
    {
      assert Later(post, [], d, c);
    }
    forall c | c in post && c != ENTRY
      ensures MetEarlier(g, post, c)
    {
      assert ParentLater(g, post, [], c);
      var q :| g.Edge(q, c) && Later(post, [], q, c);
    }
  }
}
