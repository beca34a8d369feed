/** The partial dominator tree that the immediate-dominator loop keeps, seen through the ancestor set of
    each block, and the facts that make the loop correct and terminating.

    A tree maps each processed block to its parent; an absent key stands for a null parent. Parents have
    larger post-order numbers than their children, and the entry block is its own parent. */
module DomTrees {
  import opened Graphs

  type Tree = map<Block, Block>
  type Numbering = map<Block, nat>

  function Parent(t: Tree, x: Block): Block
    requires x in t
  {
    t[x]
  }

  ghost predicate Numbered(post: Numbering) {
    && (forall x :: x in post ==> post[x] < |post|)
    && (forall x, y :: x in post && y in post && post[x] == post[y] ==> x == y)
  }

  ghost predicate IsTree(t: Tree, post: Numbering) {
    && Numbered(post)
    && t.Keys <= post.Keys
    && ENTRY in t && Parent(t, ENTRY) == ENTRY
    && (forall x {:trigger Parent(t, x)} :: x in t && x != ENTRY ==> Parent(t, x) in t && post[x] < post[Parent(t, x)])
  }

  /** The blocks on the way from `x` up to the root, both included. */
  ghost function Anc(t: Tree, post: Numbering, x: Block): (r: set<Block>)
    requires IsTree(t, post) && x in t
    ensures x in r && r <= t.Keys
    decreases |post| - post[x]
  {
    if x == ENTRY then {ENTRY} else {x} + Anc(t, post, Parent(t, x))
  }

  lemma {:induction false} AncAbove(t: Tree, post: Numbering, x: Block, a: Block)
    requires IsTree(t, post) && x in t && a in Anc(t, post, x)
    ensures a in t && (a == x || post[x] < post[a])
    ensures Anc(t, post, a) <= Anc(t, post, x)
    decreases |post| - post[x]
  {
    if a != x {
      AncAbove(t, post, Parent(t, x), a);
    }
  }

  lemma {:induction false} RootIsAnc(t: Tree, post: Numbering, x: Block)
    requires IsTree(t, post) && x in t
    ensures ENTRY in Anc(t, post, x)
    decreases |post| - post[x]
  {
    if x != ENTRY {
      RootIsAnc(t, post, Parent(t, x));
    }
  }

  /** Two ancestors of the same block are ordered by the tree. */
  lemma {:induction false} AncChain(t: Tree, post: Numbering, x: Block, a: Block, b: Block)
    requires IsTree(t, post) && x in t
    requires a in Anc(t, post, x) && b in Anc(t, post, x) && post[a] <= post[b]
    ensures b in Anc(t, post, a)
    decreases |post| - post[x]
  {
    if a != x {
      AncAbove(t, post, Parent(t, x), a);
      AncChain(t, post, Parent(t, x), a, b);
    }
  }

  /** Ancestors depend only on the parents of the ancestors. */
  lemma {:induction false} AncFrame(t: Tree, u: Tree, post: Numbering, x: Block)
    requires IsTree(t, post) && IsTree(u, post) && x in t
    requires forall y :: y in Anc(t, post, x) ==> y in u && Parent(u, y) == Parent(t, y)
    ensures x in u && Anc(u, post, x) == Anc(t, post, x)
    decreases |post| - post[x]
  {
    assert x in Anc(t, post, x);
    if x != ENTRY {
      forall y | y in Anc(t, post, Parent(t, x))
        ensures y in u && Parent(u, y) == Parent(t, y)
      {
        assert y in Anc(t, post, x);
      }
      AncFrame(t, u, post, Parent(t, x));
    }
  }

  lemma AncFrameAbove(t: Tree, u: Tree, post: Numbering, x: Block)
    requires IsTree(t, post) && IsTree(u, post) && x in t
    requires forall y {:trigger Parent(t, y)} :: y in t && post[x] <= post[y] ==> y in u && Parent(u, y) == Parent(t, y)
    ensures x in u && Anc(u, post, x) == Anc(t, post, x)
  {
    forall y | y in Anc(t, post, x)
      ensures y in u && Parent(u, y) == Parent(t, y)
    {
      AncAbove(t, post, x, y);
    }
    AncFrame(t, u, post, x);
  }

  // ----- re-hanging one block -----

  lemma ReparentIsTree(t: Tree, post: Numbering, c: Block, n: Block)
    requires IsTree(t, post) && c in post && c != ENTRY && n in t && post[c] < post[n]
    ensures IsTree(t[c := n], post)
    ensures Parent(t[c := n], c) == n
    ensures forall x {:trigger Parent(t[c := n], x)} :: x in t && x != c ==> Parent(t[c := n], x) == Parent(t, x)
  {
    var u := t[c := n];
    forall x | x in u && x != ENTRY
      ensures Parent(u, x) in u && post[x] < post[Parent(u, x)]
    {
      if x != c {
        assert Parent(u, x) == Parent(t, x);
      }
    }
  }

  /** Where ancestor sets go when `c` is re-hung under an ancestor `n` of its parent: only the blocks strictly
      between `c` and `n` are lost, and only by the blocks below `c`. */
  lemma {:induction false} AncMove(t: Tree, post: Numbering, c: Block, n: Block, x: Block)
    requires IsTree(t, post) && x in t && c in t && c != ENTRY && n in Anc(t, post, Parent(t, c))
    ensures n in t && IsTree(t[c := n], post)
    ensures c !in Anc(t, post, x) ==> Anc(t[c := n], post, x) == Anc(t, post, x)
    ensures c in Anc(t, post, x) ==>
              forall y :: y in Anc(t[c := n], post, x) <==>
                          y in Anc(t, post, x) && (y !in Anc(t, post, c) || y == c || y in Anc(t, post, n))
    decreases |post| - post[x]
  {
    var u := t[c := n];
    AncAbove(t, post, Parent(t, c), n);
    ReparentIsTree(t, post, c, n);
    if c !in Anc(t, post, x) {
      AncFrame(t, u, post, x);
    } else if x == c {
      forall y | y in t && post[n] <= post[y]
        ensures y in u && Parent(u, y) == Parent(t, y)
      {
      }
      AncFrameAbove(t, u, post, n);
    } else {
      AncMove(t, post, c, n, Parent(t, x));
      if x in Anc(t, post, c) {
        AncAbove(t, post, x, c);
        AncAbove(t, post, c, x);
        assert false;
      }
    }
  }

  lemma AncMoveShrinks(t: Tree, post: Numbering, c: Block, n: Block, x: Block)
    requires IsTree(t, post) && x in t && c in t && c != ENTRY && n in Anc(t, post, Parent(t, c))
    ensures n in t && IsTree(t[c := n], post)
    ensures Anc(t[c := n], post, x) <= Anc(t, post, x)
    ensures post[c] < post[x] ==> Anc(t[c := n], post, x) == Anc(t, post, x)
  {
    AncMove(t, post, c, n, x);
    if c in Anc(t, post, x) {
      AncAbove(t, post, x, c);
    }
  }

  // ----- meets -----

  /** The predecessors of `c` that already have a parent. */
  function Processed(g: Cfg, t: Tree, c: Block): set<Block>
    requires c < |g.preds|
  {
    set p | p in g.preds[c] && p in t
  }

  ghost predicate Common(t: Tree, post: Numbering, ps: set<Block>, y: Block)
    requires IsTree(t, post) && ps <= t.Keys
  {
    forall p :: p in ps ==> y in Anc(t, post, p)
  }

  /** `n` is the lowest common ancestor of `ps`. */
  ghost predicate IsMeet(t: Tree, post: Numbering, ps: set<Block>, n: Block)
    requires IsTree(t, post) && ps <= t.Keys
  {
    n in t && forall y :: y in Anc(t, post, n) <==> Common(t, post, ps, y)
  }

  // ----- one pass over the blocks -----

  ghost predicate ForwardPred(g: Cfg, t: Tree, post: Numbering, c: Block, q: Block)
    requires IsTree(t, post) && c in t && c < |g.preds|
  {
    q in Processed(g, t, c) && post[c] < post[q]
  }

  /** What recomputing `c` can only confirm or raise: every common ancestor of its processed predecessors is an
      ancestor of its parent, and its parent is an ancestor of a predecessor met earlier in the pass. */
  ghost predicate Settled(g: Cfg, t: Tree, post: Numbering, c: Block)
    requires IsTree(t, post) && c in t && c != ENTRY && c < |g.preds|
  {
    && (forall y :: Common(t, post, Processed(g, t, c), y) ==> y in Anc(t, post, Parent(t, c)))
    && (exists q :: ForwardPred(g, t, post, c, q) && Parent(t, c) in Anc(t, post, q))
  }

  ghost predicate AllSettled(g: Cfg, t: Tree, post: Numbering, k: nat)
    requires IsTree(t, post)
  {
    forall c :: c in t && c != ENTRY && k <= post[c] ==> c < |g.preds| && Settled(g, t, post, c)
  }

  /** If `a` was an ancestor of `x` at the start of the pass, then what `x` still has at the height of `a` or above
      it shares with `a`. */
  ghost predicate KeepsOrder(s: Tree, t: Tree, post: Numbering)
    requires IsTree(s, post) && IsTree(t, post) && s.Keys == t.Keys
  {
    forall x, a, y :: x in t && a in Anc(s, post, x) && y in Anc(t, post, x) && post[a] <= post[y]
      ==> y in Anc(t, post, a)
  }

  ghost predicate Shrunk(s: Tree, t: Tree, post: Numbering)
    requires IsTree(s, post) && IsTree(t, post) && s.Keys == t.Keys
  {
    forall x {:trigger Anc(t, post, x)} :: x in t ==> Anc(t, post, x) <= Anc(s, post, x)
  }

  ghost predicate PendingSame(s: Tree, t: Tree, post: Numbering, k: nat)
    requires IsTree(s, post) && IsTree(t, post) && s.Keys == t.Keys
  {
    forall x {:trigger Parent(t, x)} {:trigger Parent(s, x)} :: x in t && post[x] < k ==> Parent(t, x) == Parent(s, x)
  }

  /** The state of a later pass that started from tree `s` and has `k` blocks to go. */
  ghost predicate InPass(g: Cfg, s: Tree, t: Tree, post: Numbering, k: nat) {
    && IsTree(s, post) && IsTree(t, post)
    && s.Keys == post.Keys && t.Keys == post.Keys
    && PendingSame(s, t, post, k)
    && Shrunk(s, t, post)
    && KeepsOrder(s, t, post)
    && AllSettled(g, t, post, k)
  }

  lemma PassStarts(g: Cfg, s: Tree, post: Numbering)
    requires IsTree(s, post) && s.Keys == post.Keys
    ensures InPass(g, s, s, post, |post|)
  {
    forall x, a, y | x in s && a in Anc(s, post, x) && y in Anc(s, post, x) && a in s && post[a] <= post[y]
      ensures y in Anc(s, post, a)
    {
      AncAbove(s, post, x, y);
      AncChain(s, post, x, a, y);
    }
  }

  /** Recomputing a block moves it to an ancestor of its present parent, never sideways. */
  lemma MovesUp(g: Cfg, s: Tree, t: Tree, post: Numbering, c: Block, n: Block)
    requires c in post && InPass(g, s, t, post, post[c] + 1)
    requires c in t && c != ENTRY && c < |g.preds| && Settled(g, s, post, c)
    requires IsMeet(t, post, Processed(g, t, c), n)
    ensures n in Anc(t, post, Parent(t, c))
    ensures exists q :: ForwardPred(g, t, post, c, q)
  {
    var q :| ForwardPred(g, s, post, c, q) && Parent(s, c) in Anc(s, post, q);
    assert Processed(g, s, c) == Processed(g, t, c);
    assert ForwardPred(g, t, post, c, q);
    assert n in Anc(t, post, n);
    assert Common(t, post, Processed(g, t, c), n);
    assert Common(s, post, Processed(g, s, c), n);
    assert n in Anc(s, post, Parent(s, c));
    AncAbove(s, post, Parent(s, c), n);
    assert n in Anc(t, post, q);
  }

  /** A block that was an ancestor at the start of the pass and has not been recomputed is one still. */
  lemma {:induction false} PendingAncestor(s: Tree, t: Tree, post: Numbering, x: Block, c: Block)
    requires IsTree(s, post) && IsTree(t, post) && s.Keys == t.Keys
    requires x in s && c in Anc(s, post, x) && c in s
    requires forall z {:trigger Parent(s, z)} :: z in t && post[z] <= post[c] ==> Parent(t, z) == Parent(s, z)
    ensures c in Anc(t, post, x)
    decreases |post| - post[x]
  {
    AncAbove(s, post, x, c);
    if x != c {
      PendingAncestor(s, t, post, Parent(s, x), c);
    }
  }

  lemma MoveKeepsOrder(g: Cfg, s: Tree, t: Tree, post: Numbering, c: Block, n: Block, x: Block, a: Block, y: Block)
    requires c in post && InPass(g, s, t, post, post[c] + 1)
    requires c in t && c != ENTRY && n in Anc(t, post, Parent(t, c))
    requires IsTree(t[c := n], post)
    requires x in t && a in Anc(s, post, x) && y in Anc(t[c := n], post, x) && a in t && post[a] <= post[y]
    ensures y in Anc(t[c := n], post, a)
  {
    AncMove(t, post, c, n, x);
    AncMove(t, post, c, n, a);
    assert y in Anc(t, post, x);
    assert y in Anc(t, post, a);
    if c in Anc(t, post, a) {
      assert c in Anc(s, post, a);
      AncAbove(s, post, x, a);
      PendingAncestor(s, t, post, x, c);
    }
  }

  lemma MoveKeepsSettled(g: Cfg, t: Tree, post: Numbering, c: Block, n: Block, d: Block)
    requires IsTree(t, post) && IsTree(t[c := n], post) && c in t && c != ENTRY && n in Anc(t, post, Parent(t, c))
    requires d in t && d != ENTRY && d < |g.preds| && post[c] < post[d] && Settled(g, t, post, d)
    ensures Settled(g, t[c := n], post, d)
  {
    hide Anc;
    var u := t[c := n];
    assert Processed(g, u, d) == Processed(g, t, d);
    forall y | Common(u, post, Processed(g, u, d), y)
      ensures y in Anc(u, post, Parent(u, d))
    {
      forall p | p in Processed(g, t, d)
        ensures y in Anc(t, post, p)
      {
        AncMoveShrinks(t, post, c, n, p);
      }
      AncMoveShrinks(t, post, c, n, Parent(t, d));
    }
    var q :| ForwardPred(g, t, post, d, q) && Parent(t, d) in Anc(t, post, q);
    AncMoveShrinks(t, post, c, n, q);
    assert ForwardPred(g, u, post, d, q) && Parent(u, d) in Anc(u, post, q);
  }

  lemma MoveSettles(g: Cfg, t: Tree, post: Numbering, c: Block, n: Block, q: Block)
    requires IsTree(t, post) && IsTree(t[c := n], post) && c in t && c != ENTRY && n in Anc(t, post, Parent(t, c))
    requires c < |g.preds| && ForwardPred(g, t, post, c, q)
    requires IsMeet(t, post, Processed(g, t, c), n)
    ensures Settled(g, t[c := n], post, c)
  {
    var u := t[c := n];
    assert Processed(g, u, c) == Processed(g, t, c);
    AncAbove(t, post, Parent(t, c), n);
    AncMoveShrinks(t, post, c, n, n);
    forall y | Common(u, post, Processed(g, u, c), y)
      ensures y in Anc(u, post, Parent(u, c))
    {
      forall p | p in Processed(g, t, c)
        ensures y in Anc(t, post, p)
      {
        AncMoveShrinks(t, post, c, n, p);
      }
      assert Common(t, post, Processed(g, t, c), y);
    }
    assert n in Anc(t, post, n);
    assert Common(t, post, Processed(g, t, c), n);
    AncMoveShrinks(t, post, c, n, q);
    assert ForwardPred(g, u, post, c, q) && Parent(u, c) in Anc(u, post, q);
  }

  lemma MoveKeepsAllSettled(g: Cfg, t: Tree, post: Numbering, c: Block, n: Block)
    requires IsTree(t, post) && IsTree(t[c := n], post) && c in t && c != ENTRY && n in Anc(t, post, Parent(t, c))
    requires AllSettled(g, t, post, post[c] + 1)
    requires c < |g.preds| && exists q :: ForwardPred(g, t, post, c, q)
    requires IsMeet(t, post, Processed(g, t, c), n)
    ensures AllSettled(g, t[c := n], post, post[c])
  {
    var q :| ForwardPred(g, t, post, c, q);
    forall d | d in t && d != ENTRY && post[c] <= post[d]
      ensures d < |g.preds| && Settled(g, t[c := n], post, d)
    {
      if d == c {
        MoveSettles(g, t, post, c, n, q);
      } else {
        MoveKeepsSettled(g, t, post, c, n, d);
      }
    }
  }

  lemma MoveKeepsOrders(g: Cfg, s: Tree, t: Tree, post: Numbering, c: Block, n: Block)
    requires c in post && InPass(g, s, t, post, post[c] + 1)
    requires c in t && c != ENTRY && n in Anc(t, post, Parent(t, c))
    requires IsTree(t[c := n], post)
    ensures Shrunk(s, t[c := n], post) && KeepsOrder(s, t[c := n], post)
  {
    var u := t[c := n];
    forall x | x in u
      ensures Anc(u, post, x) <= Anc(s, post, x)
    {
      AncMoveShrinks(t, post, c, n, x);
    }
    forall x, a, y | x in u && a in Anc(s, post, x) && y in Anc(u, post, x) && a in u && post[a] <= post[y]
      ensures y in Anc(u, post, a)
    {
      MoveKeepsOrder(g, s, t, post, c, n, x, a, y);
    }
  }

  lemma MoveKeepsPending(s: Tree, t: Tree, post: Numbering, c: Block, n: Block)
    requires IsTree(s, post) && IsTree(t, post) && s.Keys == t.Keys && IsTree(t[c := n], post)
    requires c in t && PendingSame(s, t, post, post[c] + 1)
    requires forall x {:trigger Parent(t[c := n], x)} :: x in t && x != c ==> Parent(t[c := n], x) == Parent(t, x)
    ensures PendingSame(s, t[c := n], post, post[c])
  {
    forall x | x in t && post[x] < post[c]
      ensures Parent(t[c := n], x) == Parent(s, x)
    {
      assert Parent(t, x) == Parent(s, x);
    }
  }

  lemma MoveKeepsPass(g: Cfg, s: Tree, t: Tree, post: Numbering, c: Block, n: Block)
    requires c in post && InPass(g, s, t, post, post[c] + 1)
    requires c in t && c != ENTRY && c < |g.preds| && n in Anc(t, post, Parent(t, c))
    requires exists q :: ForwardPred(g, t, post, c, q)
    requires IsMeet(t, post, Processed(g, t, c), n)
    requires IsTree(t[c := n], post)
    requires forall x {:trigger Parent(t[c := n], x)} :: x in t && x != c ==> Parent(t[c := n], x) == Parent(t, x)
    ensures InPass(g, s, t[c := n], post, post[c])
  {
    var u := t[c := n];
    MoveKeepsOrders(g, s, t, post, c, n);
    MoveKeepsAllSettled(g, t, post, c, n);
    MoveKeepsPending(s, t, post, c, n);
  }

  /** One step of a later pass: the block moves up, and the rest of the pass still works. */
  lemma PassStep(g: Cfg, s: Tree, t: Tree, post: Numbering, c: Block, n: Block)
    requires c in post && InPass(g, s, t, post, post[c] + 1)
    requires c in t && c != ENTRY && c < |g.preds| && Settled(g, s, post, c)
    requires IsMeet(t, post, Processed(g, t, c), n)
    ensures n in Anc(t, post, Parent(t, c))
    ensures InPass(g, s, t[c := n], post, post[c])
  {
    MovesUp(g, s, t, post, c, n);
    AncAbove(t, post, Parent(t, c), n);
    ReparentIsTree(t, post, c, n);
    MoveKeepsPass(g, s, t, post, c, n);
  }

  lemma GrowKeepsSettled(g: Cfg, t: Tree, u: Tree, post: Numbering, d: Block)
    requires IsTree(t, post) && IsTree(u, post) && t.Keys <= u.Keys
    requires forall x {:trigger Anc(u, post, x)} :: x in t ==> Anc(u, post, x) == Anc(t, post, x)
    requires d in t && d != ENTRY && Parent(u, d) == Parent(t, d)
    requires d < |g.preds| && Settled(g, t, post, d)
    ensures Settled(g, u, post, d)
  {
    assert Processed(g, t, d) <= Processed(g, u, d);
    forall y | Common(u, post, Processed(g, u, d), y)
      ensures y in Anc(u, post, Parent(u, d))
    {
      forall p | p in Processed(g, t, d)
        ensures y in Anc(t, post, p)
      {
        assert Anc(u, post, p) == Anc(t, post, p);
      }
    }
    var r :| ForwardPred(g, t, post, d, r) && Parent(t, d) in Anc(t, post, r);
    assert ForwardPred(g, u, post, d, r) && Parent(u, d) in Anc(u, post, r);
  }

  lemma GrowSettles(g: Cfg, t: Tree, u: Tree, post: Numbering, c: Block, q: Block)
    requires IsTree(t, post) && IsTree(u, post) && t.Keys <= u.Keys
    requires forall x {:trigger Anc(u, post, x)} :: x in t ==> Anc(u, post, x) == Anc(t, post, x)
    requires c in u && c != ENTRY && c < |g.preds|
    requires q in Processed(g, t, c) && q in post && post[c] < post[q]
    requires IsMeet(t, post, Processed(g, t, c), Parent(u, c))
    ensures Settled(g, u, post, c)
  {
    var n := Parent(u, c);
    assert Processed(g, t, c) <= Processed(g, u, c);
    forall y | Common(u, post, Processed(g, u, c), y)
      ensures y in Anc(u, post, n)
    {
      forall p | p in Processed(g, t, c)
        ensures y in Anc(t, post, p)
      {
        assert Anc(u, post, p) == Anc(t, post, p);
      }
      assert Common(t, post, Processed(g, t, c), y);
      assert Anc(u, post, n) == Anc(t, post, n);
    }
    assert n in Anc(t, post, n);
    assert Common(t, post, Processed(g, t, c), n);
    assert Anc(u, post, q) == Anc(t, post, q);
    assert ForwardPred(g, u, post, c, q) && Parent(u, c) in Anc(u, post, q);
  }

  lemma GrowKeepsAnc(t: Tree, post: Numbering, c: Block, n: Block)
    requires IsTree(t, post) && c in post && c !in t && n in t && post[c] < post[n]
    ensures IsTree(t[c := n], post)
    ensures forall x {:trigger Anc(t[c := n], post, x)} :: x in t ==> Anc(t[c := n], post, x) == Anc(t, post, x)
  {
    ReparentIsTree(t, post, c, n);
    forall x | x in t
      ensures Anc(t[c := n], post, x) == Anc(t, post, x)
    {
      AncFrame(t, t[c := n], post, x);
    }
  }

  /** One step of the first pass: `c` gets its first parent. */
  lemma FirstPassStep(g: Cfg, t: Tree, post: Numbering, c: Block, n: Block, q: Block)
    requires IsTree(t, post) && AllSettled(g, t, post, 0)
    requires c in post && c !in t && c < |g.preds|
    requires q in Processed(g, t, c) && q in post && post[c] < post[q]
    requires IsMeet(t, post, Processed(g, t, c), n) && post[c] < post[n]
    ensures IsTree(t[c := n], post) && AllSettled(g, t[c := n], post, 0)
  {
    var u := t[c := n];
    GrowKeepsAnc(t, post, c, n);
    forall d | d in u && d != ENTRY
      ensures d < |g.preds| && Settled(g, u, post, d)
    {
      if d != c {
        GrowKeepsSettled(g, t, u, post, d);
      } else {
        GrowSettles(g, t, u, post, c, q);
      }
    }
  }

  // ----- the measure -----

  /** All pairs of a block and one of its ancestors. */
  ghost function AncPairs(t: Tree, post: Numbering): set<(Block, Block)>
    requires IsTree(t, post)
  {
    set x, a | x in t && a in t && a in Anc(t, post, x) :: (x, a)
  }

  lemma PairsShrink(t: Tree, u: Tree, post: Numbering)
    requires IsTree(t, post) && IsTree(u, post) && u.Keys == t.Keys
    requires forall x {:trigger Anc(u, post, x)} :: x in t ==> Anc(u, post, x) <= Anc(t, post, x)
    ensures AncPairs(u, post) <= AncPairs(t, post)
    ensures u != t ==> AncPairs(u, post) < AncPairs(t, post)
  {
    if u != t {
      var c :| c in t && Parent(u, c) != Parent(t, c);
      assert Parent(u, c) in Anc(u, post, Parent(u, c)) && Parent(u, c) in Anc(u, post, c);
      assert Parent(t, c) in Anc(t, post, Parent(t, c)) && Parent(t, c) in Anc(t, post, c);
      if Parent(t, c) in Anc(u, post, c) {
        assert Parent(t, c) != c;
        assert Parent(t, c) in Anc(u, post, Parent(u, c));
        AncAbove(u, post, Parent(u, c), Parent(t, c));
        assert Parent(u, c) in Anc(t, post, Parent(t, c));
        AncAbove(t, post, Parent(t, c), Parent(u, c));
        assert false;
      }
      assert (c, Parent(t, c)) in AncPairs(t, post) && (c, Parent(t, c)) !in AncPairs(u, post);
    }
  }

  // ----- dominance -----

  /** Some predecessor of `c` comes before it in reverse post-order. */
  ghost predicate MetEarlier(g: Cfg, post: Numbering, c: Block)
    requires c in post
  {
    exists q :: g.Edge(q, c) && q in post && post[c] < post[q]
  }

  /** The numbering is a post-order of a depth-first walk of the reachable blocks. */
  ghost predicate PostOrdered(g: Cfg, post: Numbering) {
    && g.Valid() && Numbered(post)
    && (forall x :: x in post <==> g.Reachable(x))
    && (forall c, d {:trigger g.StrictlyDominates(d, c)} :: c in post && g.StrictlyDominates(d, c) ==> d in post && post[c] < post[d])
    && (forall c {:trigger MetEarlier(g, post, c)} :: c in post && c != ENTRY ==> MetEarlier(g, post, c))
  }

  /** Every strict dominator of a processed block dominates its present parent. */
  ghost predicate KeepsDominators(g: Cfg, t: Tree) {
    forall c, d {:trigger g.StrictlyDominates(d, c)} :: c in t && c != ENTRY && g.StrictlyDominates(d, c) ==> g.Dominates(d, Parent(t, c))
  }

  lemma {:induction false} DominatorIsAnc(g: Cfg, t: Tree, post: Numbering, x: Block, d: Block)
    requires PostOrdered(g, post) && IsTree(t, post) && KeepsDominators(g, t)
    requires x in t && g.Dominates(d, x)
    ensures d in Anc(t, post, x)
    decreases |post| - post[x]
  {
    if x != d {
      if x == ENTRY {
        assert g.PathTo([ENTRY], ENTRY);
        assert false;
      }
      assert g.StrictlyDominates(d, x);
      DominatorIsAnc(g, t, post, Parent(t, x), d);
    }
  }

  /** On the way up from `x` to one of its dominators `d`, every block is dominated by `d`. */
  lemma {:induction false} DominatedOnTheWay(g: Cfg, t: Tree, post: Numbering, x: Block, r: Block, d: Block)
    requires PostOrdered(g, post) && IsTree(t, post) && KeepsDominators(g, t)
    requires x in t && g.Dominates(d, x) && r in Anc(t, post, x)
    requires r in t && d in Anc(t, post, r)
    ensures g.Dominates(d, r)
    decreases |post| - post[x]
  {
    if x != r {
      AncAbove(t, post, x, r);
      AncAbove(t, post, r, d);
      assert g.StrictlyDominates(d, x);
      DominatedOnTheWay(g, t, post, Parent(t, x), r, d);
    }
  }

  /** A block that dominates all processed predecessors dominates their meet. */
  lemma MeetIsDominated(g: Cfg, t: Tree, post: Numbering, ps: set<Block>, n: Block, d: Block)
    requires PostOrdered(g, post) && IsTree(t, post) && KeepsDominators(g, t)
    requires ps != {} && ps <= t.Keys && IsMeet(t, post, ps, n)
    requires forall p :: p in ps ==> g.Dominates(d, p)
    ensures g.Dominates(d, n)
  {
    forall p | p in ps
      ensures d in Anc(t, post, p)
    {
      DominatorIsAnc(g, t, post, p, d);
    }
    assert Common(t, post, ps, d);
    assert n in Anc(t, post, n);
    assert Common(t, post, ps, n);
    var p :| p in ps;
    DominatedOnTheWay(g, t, post, p, n, d);
  }

  /** Recomputing `c` gives the parent it has. */
  ghost predicate AtMeet(g: Cfg, t: Tree, post: Numbering, c: Block)
    requires IsTree(t, post) && c in t
  {
    c < |g.preds| && IsMeet(t, post, Processed(g, t, c), Parent(t, c))
  }

  /** What the loop has when it stops: each parent is the meet of the reachable predecessors. */
  ghost predicate Fixpoint(g: Cfg, t: Tree, post: Numbering) {
    && IsTree(t, post) && t.Keys == post.Keys
    && (forall c {:trigger AtMeet(g, t, post, c)} :: c in t && c != ENTRY ==> AtMeet(g, t, post, c))
  }

  lemma {:induction false} AncOnEveryPath(g: Cfg, t: Tree, post: Numbering, p: seq<Block>, b: Block, a: Block)
    requires PostOrdered(g, post) && Fixpoint(g, t, post)
    requires g.PathTo(p, b) && b in t && a in Anc(t, post, b)
    ensures a in p
    decreases |p|
  {
    if a != b {
      var q := p[|p| - 2];
      assert AtMeet(g, t, post, b);
      assert q in Processed(g, t, b) by {
        assert g.Edge(q, b) && g.PathTo(p[..|p| - 1], q);
        assert g.Reachable(q);
      }
      assert AtMeet(g, t, post, b);
      assert Common(t, post, Processed(g, t, b), a);
      AncOnEveryPath(g, t, post, p[..|p| - 1], q, a);
    }
  }

  /** When the loop stops, the ancestors of a block are exactly its dominators. */
  lemma AncestorsAreDominators(g: Cfg, t: Tree, post: Numbering, b: Block, a: Block)
    requires PostOrdered(g, post) && Fixpoint(g, t, post) && KeepsDominators(g, t)
    requires b in t
    ensures a in Anc(t, post, b) <==> g.Dominates(a, b)
  {
    if a in Anc(t, post, b) {
      forall p | g.PathTo(p, b)
        ensures a in p
      {
        AncOnEveryPath(g, t, post, p, b, a);
      }
    }
    if g.Dominates(a, b) {
      DominatorIsAnc(g, t, post, b, a);
    }
  }

  // ----- subtrees -----

  ghost function Subtree(t: Tree, post: Numbering, b: Block): set<Block>
    requires IsTree(t, post)
  {
    set x | x in t && b in Anc(t, post, x)
  }

  lemma SubtreeOfChild(t: Tree, post: Numbering, b: Block, c: Block)
    requires IsTree(t, post) && b in t && c in t && c != ENTRY && Parent(t, c) == b
    ensures Subtree(t, post, c) <= Subtree(t, post, b) && b !in Subtree(t, post, c)
    ensures forall x :: x in Anc(t, post, c) && x != c ==> x in Anc(t, post, b)
  {
    forall x | x in Subtree(t, post, c)
      ensures x in Subtree(t, post, b)
    {
      AncAbove(t, post, x, c);
    }
    if c in Anc(t, post, b) {
      AncAbove(t, post, b, c);
    }
  }

  lemma SiblingsApart(t: Tree, post: Numbering, b: Block, c: Block, d: Block)
    requires IsTree(t, post) && b in t && c in t && d in t && c != d && c != ENTRY && d != ENTRY
    requires Parent(t, c) == b && Parent(t, d) == b
    ensures Subtree(t, post, c) !! Subtree(t, post, d)
  {
    forall x | x in Subtree(t, post, c)
      ensures x !in Subtree(t, post, d)
    {
      if d in Anc(t, post, x) {
        if post[c] <= post[d] {
          AncChain(t, post, x, c, d);
          AncAbove(t, post, b, d);
        } else {
          AncChain(t, post, x, d, c);
          AncAbove(t, post, b, c);
        }
        assert false;
      }
    }
  }

  /** The child of `b` on the way down to `x`. */
  lemma {:induction false} ChildTowards(t: Tree, post: Numbering, b: Block, x: Block) returns (c: Block)
    requires IsTree(t, post) && b in t && x in Subtree(t, post, b) && x != b
    ensures c in t && c != ENTRY && Parent(t, c) == b && x in Subtree(t, post, c)
    decreases |post| - post[x]
  {
    if Parent(t, x) == b {
      c := x;
    } else {
      c := ChildTowards(t, post, b, Parent(t, x));
      assert c in Anc(t, post, Parent(t, x));
    }
  }
}
