/** Control-flow graphs, paths and dominance.

    A block is named by its position in the function's block list, so block 0
    is the entry block. The successor and predecessor lists are kept separately,
    as the IR keeps them, and may repeat a block. */
module Graphs {

  type Block = nat

  const ENTRY: Block := 0

  datatype Cfg = Cfg(succs: seq<seq<Block>>, preds: seq<seq<Block>>) {

    function Size(): nat {
      |succs|
    }

    predicate Edge(a: Block, b: Block) {
      a < |succs| && b in succs[a]
    }

    /** Both edge lists name blocks of the function and describe the same edges. */
    ghost predicate Valid() {
      && 0 < |succs| == |preds|
      && (forall a: Block, b: Block :: Edge(a, b) ==> b < |succs|)
      && (forall a: Block, b: Block {:trigger Edge(a, b)} | b < |succs| :: Edge(a, b) <==> a in preds[b])
    }

    /** `p` is a walk from the entry block to `b`. */
    ghost predicate PathTo(p: seq<Block>, b: Block)
      decreases |p|
    {
      && |p| > 0
      && p[|p| - 1] == b < |succs|
      && if |p| == 1 then b == ENTRY
         else Edge(p[|p| - 2], b) && PathTo(p[..|p| - 1], p[|p| - 2])
    }

    ghost predicate Reachable(b: Block) {
      exists p :: PathTo(p, b)
    }

    /** Every walk from the entry block to `b` goes through `d`. */
    ghost predicate Dominates(d: Block, b: Block) {
      forall p :: PathTo(p, b) ==> d in p
    }

    ghost predicate StrictlyDominates(d: Block, b: Block) {
      d != b && Dominates(d, b)
    }

    /** `b` is in the dominance frontier of `x`. */
    ghost predicate InFrontier(x: Block, b: Block)
      requires Valid()
    {
      b < |succs| && !StrictlyDominates(x, b) && exists p :: p in preds[b] && Dominates(x, p)
    }
  }

  /** The first `n` blocks. */
  ghost function Below(n: nat): (r: set<Block>)
    ensures forall b: Block :: b in r <==> b < n
  {
    if n == 0 then {} else Below(n - 1) + {n - 1}
  }

  lemma PathExtend(g: Cfg, p: seq<Block>, a: Block, b: Block)
    requires g.PathTo(p, a) && g.Edge(a, b) && b < g.Size()
    ensures g.PathTo(p + [b], b)
  {
    assert (p + [b])[..|p|] == p;
  }

  /** Every block on a walk from the entry block is itself reachable, by a prefix of the walk. */
  lemma {:induction false} PathPrefix(g: Cfg, p: seq<Block>, b: Block, i: nat)
    requires g.PathTo(p, b) && i < |p|
    ensures g.PathTo(p[..i + 1], p[i])
    decreases |p|
  {
    if i == |p| - 1 {
      assert p[..i + 1] == p;
    } else {
      PathPrefix(g, p[..|p| - 1], p[|p| - 2], i);
      assert p[..|p| - 1][..i + 1] == p[..i + 1];
    }
  }

  lemma PathBlocksReachable(g: Cfg, p: seq<Block>, b: Block)
    requires g.PathTo(p, b)
    ensures forall x :: x in p ==> x < g.Size() && g.Reachable(x)
  {
    forall x | x in p
      ensures x < g.Size() && g.Reachable(x)
    {
      var i :| 0 <= i < |p| && p[i] == x;
      PathPrefix(g, p, b, i);
    }
  }

  lemma EntryReachable(g: Cfg)
    requires g.Valid()
    ensures g.Reachable(ENTRY)
  {
    assert g.PathTo([ENTRY], ENTRY);
  }

  /** A strict dominator of a block dominates each of its predecessors. */
  lemma StrictDominatorOfPred(g: Cfg, d: Block, p: Block, b: Block)
    requires g.Valid() && g.Edge(p, b) && g.StrictlyDominates(d, b)
    ensures g.Dominates(d, p)
  {
    forall w | g.PathTo(w, p)
      ensures d in w
    {
      PathExtend(g, w, p, b);
      assert d in w + [b];
    }
  }

  lemma EntryDominatesAll(g: Cfg, b: Block)
    ensures g.Dominates(ENTRY, b)
  {
    forall p | g.PathTo(p, b)
      ensures ENTRY in p
    {
      PathPrefix(g, p, b, 0);
    }
  }
}
