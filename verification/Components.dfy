/** Reachability inside a set of blocks, strongly connected components, and what Tarjan's search keeps. */
module Components {
  import opened Graphs

  /** A walk along edges that never leaves `nodes`. */
  ghost predicate Walk(g: Cfg, nodes: set<Block>, p: seq<Block>) {
    && |p| > 0
    && (forall i :: 0 <= i < |p| ==> p[i] in nodes)
    && (forall i :: 0 < i < |p| ==> g.Edge(p[i - 1], p[i]))
  }

  ghost predicate WalkBetween(g: Cfg, nodes: set<Block>, p: seq<Block>, a: Block, b: Block) {
    Walk(g, nodes, p) && p[0] == a && p[|p| - 1] == b
  }

  ghost predicate Reach(g: Cfg, nodes: set<Block>, a: Block, b: Block) {
    exists p :: WalkBetween(g, nodes, p, a, b)
  }

  lemma ReachSelf(g: Cfg, nodes: set<Block>, a: Block)
    requires a in nodes
    ensures Reach(g, nodes, a, a)
  {
    assert WalkBetween(g, nodes, [a], a, a);
  }

  lemma ReachEdge(g: Cfg, nodes: set<Block>, a: Block, b: Block)
    requires a in nodes && b in nodes && g.Edge(a, b)
    ensures Reach(g, nodes, a, b)
  {
    assert WalkBetween(g, nodes, [a, b], a, b);
  }

  lemma ReachTrans(g: Cfg, nodes: set<Block>, a: Block, b: Block, c: Block)
    requires Reach(g, nodes, a, b) && Reach(g, nodes, b, c)
    ensures Reach(g, nodes, a, c)
  {
    var p :| WalkBetween(g, nodes, p, a, b);
    var q :| WalkBetween(g, nodes, q, b, c);
    var r := p + q[1..];
    forall i | 0 < i < |r|
      ensures g.Edge(r[i - 1], r[i])
    {
      if i >= |p| {
        assert r[i] == q[i - |p| + 1] && r[i - 1] == q[i - |p|];
      }
    }
    assert WalkBetween(g, nodes, r, a, c);
  }

  lemma ReachInside(g: Cfg, nodes: set<Block>, a: Block, b: Block)
    requires Reach(g, nodes, a, b)
    ensures a in nodes && b in nodes
  {
  }

  lemma ReachMono(g: Cfg, nodes: set<Block>, more: set<Block>, a: Block, b: Block)
    requires nodes <= more && Reach(g, nodes, a, b)
    ensures Reach(g, more, a, b)
  {
    var p :| WalkBetween(g, nodes, p, a, b);
    assert WalkBetween(g, more, p, a, b);
  }

  /** Each reaches the other. */
  ghost predicate Linked(g: Cfg, nodes: set<Block>, a: Block, b: Block) {
    Reach(g, nodes, a, b) && Reach(g, nodes, b, a)
  }

  /** `c` is a strongly connected component of the graph that `nodes` induce. */
  ghost predicate IsScc(g: Cfg, nodes: set<Block>, c: set<Block>) {
    && c != {} && c <= nodes
    && forall x, y :: x in c ==> (y in c <==> Linked(g, nodes, x, y))
  }

  /** Components that meet are equal. */
  lemma SccsDisjoint(g: Cfg, nodes: set<Block>, c: set<Block>, d: set<Block>, x: Block)
    requires IsScc(g, nodes, c) && IsScc(g, nodes, d) && x in c && x in d
    ensures c == d
  {
  }

  // ----- the search -----

  /** The state of the search. `gray` are the blocks whose visit is under way; `sccs` are the components closed. */
  datatype Search = Search(index: map<Block, int>, count: int, stack: seq<Block>, sccs: set<set<Block>>,
                           gray: set<Block>)

  ghost predicate OnStack(s: Search) {
    && (forall i :: 0 <= i < |s.stack| ==> s.stack[i] in s.index)
    && (forall i, j :: 0 <= i < j < |s.stack| ==>
          s.stack[i] in s.index && s.stack[j] in s.index && s.index[s.stack[i]] < s.index[s.stack[j]])
    && (forall x :: x in s.gray ==> x in s.stack)
    && (forall x :: x in s.index ==> s.index[x] < s.count)
  }

  /** The components closed so far are components, and hold exactly the visited blocks that have left the stack. */
  ghost predicate Closed(g: Cfg, nodes: set<Block>, s: Search) {
    && s.index.Keys <= nodes
    && (forall c :: c in s.sccs ==> IsScc(g, nodes, c))
    && (forall c, x :: c in s.sccs && x in c ==> x in s.index && x !in s.stack)
    && (forall x :: x in s.index && x !in s.stack ==> exists c :: c in s.sccs && x in c)
  }

  /** A block whose visit has ended has visited successors only. */
  ghost predicate NoWhiteEdge(g: Cfg, nodes: set<Block>, s: Search) {
    forall x, y :: x in s.index && x !in s.gray && g.Edge(x, y) && y in nodes ==> y in s.index
  }

  ghost predicate NoLater(s: Search, x: Block, y: Block) {
    x in s.index && y in s.index && s.index[x] <= s.index[y]
  }

  /** A block under visit reaches everything above it on the stack. */
  ghost predicate GrayReaches(g: Cfg, nodes: set<Block>, s: Search) {
    forall x, y {:trigger NoLater(s, x, y)} :: x in s.gray && y in s.stack && NoLater(s, x, y) ==> Reach(g, nodes, x, y)
  }

  /** Every block on the stack reaches a block under visit at or below it. */
  ghost predicate ReachesGray(g: Cfg, nodes: set<Block>, s: Search) {
    forall y {:trigger HasGray(g, nodes, s, y)} :: y in s.stack ==> HasGray(g, nodes, s, y)
  }

  ghost predicate HasGray(g: Cfg, nodes: set<Block>, s: Search, y: Block) {
    exists x :: x in s.gray && NoLater(s, x, y) && Reach(g, nodes, y, x)
  }

  ghost predicate Sound(g: Cfg, nodes: set<Block>, s: Search) {
    && OnStack(s) && Closed(g, nodes, s) && NoWhiteEdge(g, nodes, s) && GrayReaches(g, nodes, s)
    && ReachesGray(g, nodes, s)
  }

  /** What any part of the search does to the state: it visits more, and leaves the old stack in place. */
  ghost predicate Extends(s: Search, t: Search) {
    && s.index.Keys <= t.index.Keys && (forall x :: x in s.index ==> t.index[x] == s.index[x])
    && s.stack <= t.stack && s.sccs <= t.sccs && s.gray == t.gray && s.count <= t.count
    && (forall x :: x in t.index && x !in s.index ==> s.count <= t.index[x])
  }

  lemma ExtendsTrans(s: Search, t: Search, u: Search)
    requires Extends(s, t) && Extends(t, u)
    ensures Extends(s, u)
  {
  }

  /** The blocks on top of `s.stack` have edges into it only at or above `low`. */
  ghost predicate NoLowerEdge(g: Cfg, s: Search, t: Search, low: int)
    requires |s.stack| <= |t.stack|
  {
    forall i, y :: |s.stack| <= i < |t.stack| && y in s.stack && g.Edge(t.stack[i], y) ==> y in s.index && low <= s.index[y]
  }

  /** `low` is the index of a block on the stack that `x` reaches, or that of `x` itself. */
  ghost predicate Witnessed(g: Cfg, nodes: set<Block>, t: Search, x: Block, low: int) {
    x in t.index && low <= t.index[x] &&
    (low == t.index[x] || exists y :: y in t.stack && y in t.index && t.index[y] == low && Reach(g, nodes, x, y))
  }

  // ----- entering a block -----

  function Enter(s: Search, x: Block): Search {
    Search(s.index[x := s.count], s.count + 1, s.stack + [x], s.sccs, s.gray + {x})
  }

  lemma EnterSound(g: Cfg, nodes: set<Block>, s: Search, x: Block)
    requires Sound(g, nodes, s) && x in nodes && x !in s.index
    requires forall z :: z in s.gray ==> Reach(g, nodes, z, x)
    ensures Sound(g, nodes, Enter(s, x))
  {
    hide Sound, IsScc, Reach;
    EnterStack(g, nodes, s, x);
    EnterClosed(g, nodes, s, x);
    EnterGray(g, nodes, s, x);
    Assemble(g, nodes, Enter(s, x));
  }

  lemma Assemble(g: Cfg, nodes: set<Block>, s: Search)
    requires OnStack(s) && Closed(g, nodes, s) && NoWhiteEdge(g, nodes, s) && GrayReaches(g, nodes, s)
    requires ReachesGray(g, nodes, s)
    ensures Sound(g, nodes, s)
  {
  }

  lemma EnterStack(g: Cfg, nodes: set<Block>, s: Search, x: Block)
    requires Sound(g, nodes, s) && x !in s.index
    ensures OnStack(Enter(s, x))
  {
    hide Closed, NoWhiteEdge, GrayReaches, ReachesGray;
  }

  lemma EnterClosed(g: Cfg, nodes: set<Block>, s: Search, x: Block)
    requires Sound(g, nodes, s) && x !in s.index && x in nodes
    ensures Closed(g, nodes, Enter(s, x)) && NoWhiteEdge(g, nodes, Enter(s, x))
  {
    hide GrayReaches, ReachesGray, IsScc;
  }

  lemma EnterGray(g: Cfg, nodes: set<Block>, s: Search, x: Block)
    requires Sound(g, nodes, s) && x !in s.index && x in nodes
    requires forall z :: z in s.gray ==> Reach(g, nodes, z, x)
    ensures GrayReaches(g, nodes, Enter(s, x)) && ReachesGray(g, nodes, Enter(s, x))
  {
    hide Closed, NoWhiteEdge, Reach;
    var t := Enter(s, x);
    ReachSelf(g, nodes, x);
    forall z, y | z in t.gray && y in t.stack && NoLater(t, z, y)
      ensures Reach(g, nodes, z, y)
    {
      if z != x && y != x {
        assert NoLater(s, z, y);
      }
    }
    forall y | y in t.stack
      ensures HasGray(g, nodes, t, y)
    {
      if y == x {
        assert NoLater(t, x, x);
      } else {
        assert HasGray(g, nodes, s, y);
        var z :| z in s.gray && NoLater(s, z, y) && Reach(g, nodes, y, z);
        assert NoLater(t, z, y);
      }
    }
  }

  // ----- leaving a block -----

  /** The state `t` when all successors of `x`, entered from state `s`, have been looked at. */
  ghost predicate Leaving(g: Cfg, nodes: set<Block>, s: Search, t: Search, x: Block, low: int) {
    && Sound(g, nodes, s) && Sound(g, nodes, t) && x in nodes && x !in s.index && Extends(Enter(s, x), t)
    && Witnessed(g, nodes, t, x, low) && NoLowerEdge(g, s, t, low)
    && (forall y :: g.Edge(x, y) && y in nodes ==> y in t.index)
  }

  /** The blocks from `x` up. */
  ghost function Group(s: Search, t: Search): set<Block> {
    if |s.stack| <= |t.stack| then set y | y in t.stack[|s.stack|..] else {}
  }

  function CloseRoot(s: Search, t: Search, x: Block, group: set<Block>): Search {
    Search(t.index, t.count, s.stack, t.sccs + {group}, t.gray - {x})
  }

  function CloseInner(t: Search, x: Block): Search {
    t.(gray := t.gray - {x})
  }

  /** The stack splits at `x`: what was there is below it in index, the group is at or above it. */
  lemma StackSplit(g: Cfg, nodes: set<Block>, s: Search, t: Search, x: Block, low: int)
    requires Leaving(g, nodes, s, t, x, low)
    ensures |s.stack| < |t.stack| && s.stack == t.stack[..|s.stack|] && t.stack[|s.stack|] == x
    ensures x in t.index && t.gray == s.gray + {x}
    ensures forall y :: y in s.stack ==> y in t.stack && y in t.index && t.index[y] < t.index[x] && y !in Group(s, t)
    ensures forall y :: y in Group(s, t) ==> y in t.stack && NoLater(t, x, y) && y !in s.stack
    ensures forall y :: y in t.stack ==> y in s.stack || y in Group(s, t)
    ensures x in Group(s, t) && forall i :: |s.stack| < i < |t.stack| ==> t.stack[i] != x
  {
    hide Closed, NoWhiteEdge, GrayReaches, ReachesGray, Witnessed, NoLowerEdge, OnStack;
    var n := |s.stack|;
    assert Enter(s, x).stack[n] == x && t.stack[n] == x;
    assert t.stack[..n] == s.stack;
    StackAround(t, n);
  }

  lemma StackAround(t: Search, n: nat)
    requires OnStack(t) && n < |t.stack|
    ensures forall y :: y in t.stack[..n] ==>
              y in t.stack && y in t.index && t.index[y] < t.index[t.stack[n]] && y !in t.stack[n..]
    ensures forall y :: y in t.stack[n..] ==> y in t.stack && NoLater(t, t.stack[n], y) && y !in t.stack[..n]
    ensures forall y :: y in t.stack ==> y in t.stack[..n] || y in t.stack[n..]
    ensures t.stack[n] in t.stack[n..] && forall i :: n < i < |t.stack| ==> t.stack[i] != t.stack[n]
  {
    var x := t.stack[n];
    assert x in t.index;
    forall y | y in t.stack[..n]
      ensures y in t.stack && y in t.index && t.index[y] < t.index[x]
    {
      var i :| 0 <= i < n && t.stack[i] == y;
    }
    forall y | y in t.stack[n..]
      ensures y in t.stack && NoLater(t, x, y)
    {
      var i :| 0 <= i < |t.stack| - n && t.stack[n..][i] == y;
      assert t.stack[n + i] == y;
      assert i > 0 ==> t.index[t.stack[n]] < t.index[t.stack[n + i]];
    }
    assert t.stack == t.stack[..n] + t.stack[n..];
    assert t.stack[n..][0] == x;
  }

  lemma GroupLinked(g: Cfg, nodes: set<Block>, s: Search, t: Search, x: Block, low: int, y: Block)
    requires Leaving(g, nodes, s, t, x, low) && y in Group(s, t)
    ensures Linked(g, nodes, x, y)
  {
    hide Reach, Closed, NoWhiteEdge, Witnessed, NoLowerEdge, OnStack;
    StackSplit(g, nodes, s, t, x, low);
    assert NoLater(t, x, y);
    assert HasGray(g, nodes, t, y);
    var z :| z in t.gray && NoLater(t, z, y) && Reach(g, nodes, y, z);
    GrayBelow(g, nodes, s, t, x, low, z);
    ReachTrans(g, nodes, y, z, x);
  }

  lemma GrayBelow(g: Cfg, nodes: set<Block>, s: Search, t: Search, x: Block, low: int, z: Block)
    requires Leaving(g, nodes, s, t, x, low) && z in t.gray
    ensures NoLater(t, z, x) && Reach(g, nodes, z, x)
  {
    hide Reach, Closed, NoWhiteEdge, Witnessed, NoLowerEdge, ReachesGray;
    StackSplit(g, nodes, s, t, x, low);
    assert NoLater(t, z, x);
  }

  /** One step of a walk that starts and can end at `x` does not leave the group, when `x` is its root. */
  lemma NoEscape(g: Cfg, nodes: set<Block>, s: Search, t: Search, x: Block, low: int, a: Block, b: Block)
    requires Leaving(g, nodes, s, t, x, low) && low == t.index[x]
    requires a in Group(s, t) && g.Edge(a, b) && b in nodes && Linked(g, nodes, x, b)
    ensures b in Group(s, t)
  {
    hide Reach, GrayReaches, ReachesGray, Witnessed, IsScc;
    StackSplit(g, nodes, s, t, x, low);
    Visited(g, nodes, s, t, x, low, a, b);
    if b !in t.stack {
      var c :| c in t.sccs && b in c;
      InScc(g, nodes, c, b, x);
    }
    if b in s.stack {
      BackEdge(g, nodes, s, t, x, low, a, b);
    }
  }

  lemma InScc(g: Cfg, nodes: set<Block>, c: set<Block>, b: Block, x: Block)
    requires IsScc(g, nodes, c) && b in c && Linked(g, nodes, x, b)
    ensures x in c
  {
    hide Reach;
    assert Linked(g, nodes, b, x);
  }

  lemma Visited(g: Cfg, nodes: set<Block>, s: Search, t: Search, x: Block, low: int, a: Block, b: Block)
    requires Leaving(g, nodes, s, t, x, low) && a in Group(s, t) && g.Edge(a, b) && b in nodes
    ensures b in t.index
  {
    hide Reach, GrayReaches, ReachesGray, Witnessed, IsScc, NoLowerEdge;
    StackSplit(g, nodes, s, t, x, low);
  }

  lemma BackEdge(g: Cfg, nodes: set<Block>, s: Search, t: Search, x: Block, low: int, a: Block, b: Block)
    requires Leaving(g, nodes, s, t, x, low) && a in Group(s, t) && g.Edge(a, b) && b in s.stack
    ensures b in s.index && low <= s.index[b] && s.index[b] < t.index[x]
  {
    hide Reach, GrayReaches, ReachesGray, Witnessed, IsScc, NoWhiteEdge, Closed, OnStack;
    StackSplit(g, nodes, s, t, x, low);
    var i :| |s.stack| <= i < |t.stack| && t.stack[i] == a;
    assert b in s.index && low <= s.index[b];
    assert t.index[b] == s.index[b];
  }

  lemma {:induction false} WalkStays(g: Cfg, nodes: set<Block>, s: Search, t: Search, x: Block, low: int,
                                     p: seq<Block>, y: Block)
    requires Leaving(g, nodes, s, t, x, low) && low == t.index[x]
    requires WalkBetween(g, nodes, p, x, y) && Reach(g, nodes, y, x)
    ensures y in Group(s, t)
    decreases |p|
  {
    hide Leaving;
    if |p| == 1 {
      StackSplit(g, nodes, s, t, x, low);
    } else {
      var q, z := p[..|p| - 1], p[|p| - 2];
      assert WalkBetween(g, nodes, q, x, z);
      assert WalkBetween(g, nodes, p, x, y) && Reach(g, nodes, x, y);
      ReachEdge(g, nodes, z, y);
      ReachTrans(g, nodes, z, y, x);
      WalkStays(g, nodes, s, t, x, low, q, z);
      NoEscape(g, nodes, s, t, x, low, z, y);
    }
  }

  /** Tarjan's criterion: when nothing on top of `x` has an edge below `x`, the blocks from `x` up are a component. */
  lemma GroupIsScc(g: Cfg, nodes: set<Block>, s: Search, t: Search, x: Block, low: int)
    requires Leaving(g, nodes, s, t, x, low) && low == t.index[x]
    ensures IsScc(g, nodes, Group(s, t))
  {
    hide Leaving;
    var c := Group(s, t);
    StackSplit(g, nodes, s, t, x, low);
    forall a, b | a in c
      ensures b in c <==> Linked(g, nodes, a, b)
    {
      GroupLinked(g, nodes, s, t, x, low, a);
      if b in c {
        GroupLinked(g, nodes, s, t, x, low, b);
        ReachTrans(g, nodes, a, x, b);
        ReachTrans(g, nodes, b, x, a);
      }
      if Linked(g, nodes, a, b) {
        ReachTrans(g, nodes, x, a, b);
        ReachTrans(g, nodes, b, a, x);
        var p :| WalkBetween(g, nodes, p, x, b);
        WalkStays(g, nodes, s, t, x, low, p, b);
      }
    }
    forall a | a in c
      ensures a in nodes
    {
      GroupLinked(g, nodes, s, t, x, low, a);
      ReachInside(g, nodes, x, a);
    }
  }

  lemma CloseRootSound(g: Cfg, nodes: set<Block>, s: Search, t: Search, x: Block, low: int)
    requires Leaving(g, nodes, s, t, x, low) && low == t.index[x]
    ensures Sound(g, nodes, CloseRoot(s, t, x, Group(s, t))) && Extends(s, CloseRoot(s, t, x, Group(s, t)))
  {
    hide Leaving, Sound, IsScc, Reach;
    GroupIsScc(g, nodes, s, t, x, low);
    RootStack(g, nodes, s, t, x, low);
    RootClosed(g, nodes, s, t, x, low);
    RootGray(g, nodes, s, t, x, low);
    Assemble(g, nodes, CloseRoot(s, t, x, Group(s, t)));
  }

  lemma RootStack(g: Cfg, nodes: set<Block>, s: Search, t: Search, x: Block, low: int)
    requires Leaving(g, nodes, s, t, x, low)
    ensures OnStack(CloseRoot(s, t, x, Group(s, t))) && Extends(s, CloseRoot(s, t, x, Group(s, t)))
  {
    hide Closed, NoWhiteEdge, GrayReaches, ReachesGray, Witnessed, NoLowerEdge;
    StackSplit(g, nodes, s, t, x, low);
    assert x !in s.gray;
    assert t.gray - {x} == s.gray;
  }

  lemma RootClosed(g: Cfg, nodes: set<Block>, s: Search, t: Search, x: Block, low: int)
    requires Leaving(g, nodes, s, t, x, low) && IsScc(g, nodes, Group(s, t))
    ensures Closed(g, nodes, CloseRoot(s, t, x, Group(s, t))) && NoWhiteEdge(g, nodes, CloseRoot(s, t, x, Group(s, t)))
  {
    hide GrayReaches, ReachesGray, IsScc, Witnessed, NoLowerEdge, Group;
    StackSplit(g, nodes, s, t, x, low);
    var u := CloseRoot(s, t, x, Group(s, t));
    forall y | y in u.index && y !in u.stack
      ensures exists c :: c in u.sccs && y in c
    {
      if y in t.stack {
        assert y in Group(s, t) && Group(s, t) in u.sccs;
      } else {
        var c :| c in t.sccs && y in c;
        assert c in u.sccs;
      }
    }
  }

  lemma RootGray(g: Cfg, nodes: set<Block>, s: Search, t: Search, x: Block, low: int)
    requires Leaving(g, nodes, s, t, x, low)
    ensures GrayReaches(g, nodes, CloseRoot(s, t, x, Group(s, t)))
    ensures ReachesGray(g, nodes, CloseRoot(s, t, x, Group(s, t)))
  {
    hide Reach, IsScc, Witnessed, NoLowerEdge, Closed, NoWhiteEdge, Group;
    StackSplit(g, nodes, s, t, x, low);
    var u := CloseRoot(s, t, x, Group(s, t));
    forall a, y | a in u.gray && y in u.stack && NoLater(u, a, y)
      ensures Reach(g, nodes, a, y)
    {
      assert NoLater(t, a, y);
    }
    forall y | y in u.stack
      ensures HasGray(g, nodes, u, y)
    {
      assert HasGray(g, nodes, t, y);
      var z :| z in t.gray && NoLater(t, z, y) && Reach(g, nodes, y, z);
      assert z != x;
      assert NoLater(u, z, y);
    }
  }

  lemma CloseInnerSound(g: Cfg, nodes: set<Block>, s: Search, t: Search, x: Block, low: int)
    requires Leaving(g, nodes, s, t, x, low) && low < t.index[x]
    ensures Sound(g, nodes, CloseInner(t, x)) && Extends(s, CloseInner(t, x))
  {
    hide Sound, IsScc, Reach;
    InnerRest(g, nodes, s, t, x, low);
    InnerGray(g, nodes, s, t, x, low);
    Assemble(g, nodes, CloseInner(t, x));
  }

  lemma InnerRest(g: Cfg, nodes: set<Block>, s: Search, t: Search, x: Block, low: int)
    requires Leaving(g, nodes, s, t, x, low)
    ensures OnStack(CloseInner(t, x)) && Closed(g, nodes, CloseInner(t, x)) && NoWhiteEdge(g, nodes, CloseInner(t, x))
    ensures GrayReaches(g, nodes, CloseInner(t, x)) && Extends(s, CloseInner(t, x))
  {
    hide Reach, IsScc, Witnessed, NoLowerEdge, ReachesGray, Group;
    StackSplit(g, nodes, s, t, x, low);
    var u := CloseInner(t, x);
    assert x !in s.gray;
    assert t.gray - {x} == s.gray;
    forall a, y | a in u.gray && y in u.stack && NoLater(u, a, y)
      ensures Reach(g, nodes, a, y)
    {
      assert NoLater(t, a, y);
    }
  }

  lemma InnerGray(g: Cfg, nodes: set<Block>, s: Search, t: Search, x: Block, low: int)
    requires Leaving(g, nodes, s, t, x, low) && low < t.index[x]
    ensures ReachesGray(g, nodes, CloseInner(t, x))
  {
    hide Reach, IsScc, NoLowerEdge, NoWhiteEdge, Closed, GrayReaches, Group, OnStack;
    StackSplit(g, nodes, s, t, x, low);
    var u := CloseInner(t, x);
    var y0 :| y0 in t.stack && y0 in t.index && t.index[y0] == low && Reach(g, nodes, x, y0);
    assert HasGray(g, nodes, t, y0);
    var z0 :| z0 in t.gray && NoLater(t, z0, y0) && Reach(g, nodes, y0, z0);
    ReachTrans(g, nodes, x, y0, z0);
    forall y | y in u.stack
      ensures HasGray(g, nodes, u, y)
    {
      assert HasGray(g, nodes, t, y);
      var z :| z in t.gray && NoLater(t, z, y) && Reach(g, nodes, y, z);
      if z == x {
        ReachTrans(g, nodes, y, x, z0);
        assert NoLater(u, z0, y);
      } else {
        assert NoLater(u, z, y);
      }
    }
  }

  // ----- looking at the successors of a block -----

  /** The blocks above the one at position `n` have edges below it only at or above `low`. */
  ghost predicate NoLowerEdgeAbove(g: Cfg, s: Search, t: Search, low: int) {
    forall i, y :: |s.stack| < i < |t.stack| && y in s.stack && g.Edge(t.stack[i], y) ==> y in s.index && low <= s.index[y]
  }

  /** The state `t` while the successors of `x`, entered from state `s`, are looked at; `done` have been. */
  ghost predicate Scanning(g: Cfg, nodes: set<Block>, s: Search, t: Search, x: Block, low: int, done: set<Block>) {
    && Sound(g, nodes, s) && Sound(g, nodes, t) && x in nodes && x !in s.index && Extends(Enter(s, x), t)
    && Witnessed(g, nodes, t, x, low) && NoLowerEdgeAbove(g, s, t, low)
    && (forall y :: y in done && y in nodes ==> y in t.index && (y in s.stack ==> y in s.index && low <= s.index[y]))
  }

  lemma ScanStart(g: Cfg, nodes: set<Block>, s: Search, x: Block)
    requires Sound(g, nodes, s) && x in nodes && x !in s.index
    requires forall z :: z in s.gray ==> Reach(g, nodes, z, x)
    ensures Scanning(g, nodes, s, Enter(s, x), x, s.count, {})
  {
    hide Sound, Reach;
    EnterSound(g, nodes, s, x);
  }

  lemma ScanReach(g: Cfg, nodes: set<Block>, s: Search, t: Search, x: Block, low: int, done: set<Block>, y: Block)
    requires Scanning(g, nodes, s, t, x, low, done) && g.Edge(x, y) && y in nodes
    ensures forall z :: z in t.gray ==> Reach(g, nodes, z, y)
  {
    hide Reach, Closed, NoWhiteEdge, ReachesGray, Witnessed, NoLowerEdgeAbove;
    assert t.stack[|s.stack|] == x;
    StackAround(t, |s.stack|);
    assert t.stack[..|s.stack|] == s.stack;
    forall z | z in t.gray
      ensures Reach(g, nodes, z, y)
    {
      assert NoLater(t, z, x);
      ReachEdge(g, nodes, x, y);
      ReachTrans(g, nodes, z, x, y);
    }
  }

  lemma ScanTree(g: Cfg, nodes: set<Block>, s: Search, t: Search, u: Search, x: Block, low: int, done: set<Block>,
                 y: Block, lowY: int)
    requires Scanning(g, nodes, s, t, x, low, done) && g.Edge(x, y) && y in nodes && y !in t.index
    requires Sound(g, nodes, u) && Extends(t, u) && y in u.index && u.index[y] == t.count
    requires Witnessed(g, nodes, u, y, lowY) && NoLowerEdge(g, t, u, lowY)
    ensures Scanning(g, nodes, s, u, x, if lowY < low then lowY else low, done + {y})
  {
    hide Sound, Reach, OnStack;
    var min := if lowY < low then lowY else low;
    ScanTreeWitness(g, nodes, s, t, u, x, low, done, y, lowY);
    ScanTreeEdges(g, nodes, s, t, u, x, low, done, lowY);
    ExtendsTrans(Enter(s, x), t, u);
    StackVisited(g, nodes, s);
    assert y !in s.stack;
  }

  lemma StackKept(s: Search, t: Search, x: Block)
    requires Extends(Enter(s, x), t)
    ensures forall y :: y in s.stack ==> y in t.stack
  {
    forall y | y in s.stack
      ensures y in t.stack
    {
      assert y in Enter(s, x).stack;
    }
  }

  lemma StackVisited(g: Cfg, nodes: set<Block>, s: Search)
    requires Sound(g, nodes, s)
    ensures forall y :: y in s.stack ==> y in s.index
    ensures forall y :: y in s.index ==> s.index[y] < s.count
  {
    hide Closed, NoWhiteEdge, GrayReaches, ReachesGray;
  }

  lemma ScanTreeWitness(g: Cfg, nodes: set<Block>, s: Search, t: Search, u: Search, x: Block, low: int,
                        done: set<Block>, y: Block, lowY: int)
    requires Scanning(g, nodes, s, t, x, low, done) && g.Edge(x, y) && y in nodes && y !in t.index
    requires Extends(t, u) && y in u.index && u.index[y] == t.count && Witnessed(g, nodes, u, y, lowY)
    ensures Witnessed(g, nodes, u, x, if lowY < low then lowY else low)
  {
    hide Sound, Reach, NoLowerEdgeAbove;
    StackVisited(g, nodes, t);
    ReachEdge(g, nodes, x, y);
    assert u.index[x] == t.index[x] < t.count;
    if lowY < low {
      var w :| w in u.stack && w in u.index && u.index[w] == lowY && Reach(g, nodes, y, w);
      ReachTrans(g, nodes, x, y, w);
    } else if low != t.index[x] {
      var w :| w in t.stack && w in t.index && t.index[w] == low && Reach(g, nodes, x, w);
      assert w in u.stack;
    }
  }

  lemma ScanTreeEdges(g: Cfg, nodes: set<Block>, s: Search, t: Search, u: Search, x: Block, low: int,
                      done: set<Block>, lowY: int)
    requires Scanning(g, nodes, s, t, x, low, done) && Extends(t, u) && NoLowerEdge(g, t, u, lowY)
    ensures NoLowerEdgeAbove(g, s, u, if lowY < low then lowY else low)
  {
    hide Sound, Reach, Witnessed;
    var min := if lowY < low then lowY else low;
    StackVisited(g, nodes, s);
    forall i, y | |s.stack| < i < |u.stack| && y in s.stack && g.Edge(u.stack[i], y)
      ensures y in s.index && min <= s.index[y]
    {
      if i < |t.stack| {
        assert u.stack[i] == t.stack[i];
      } else {
        StackKept(s, t, x);
        assert t.index[y] == s.index[y];
      }
    }
  }

  lemma ScanBack(g: Cfg, nodes: set<Block>, s: Search, t: Search, x: Block, low: int, done: set<Block>, y: Block)
    requires Scanning(g, nodes, s, t, x, low, done) && g.Edge(x, y) && y in nodes && y in t.index && y in t.stack
    ensures Scanning(g, nodes, s, t, x, if t.index[y] < low then t.index[y] else low, done + {y})
  {
    hide Sound, Reach;
    ReachEdge(g, nodes, x, y);
    StackVisited(g, nodes, s);
  }

  lemma ScanSkip(g: Cfg, nodes: set<Block>, s: Search, t: Search, x: Block, low: int, done: set<Block>, y: Block)
    requires Scanning(g, nodes, s, t, x, low, done) && (y in nodes ==> y in t.index && y !in t.stack)
    ensures Scanning(g, nodes, s, t, x, low, done + {y})
  {
    hide Sound, Reach;
    StackKept(s, t, x);
  }

  lemma ScanEnd(g: Cfg, nodes: set<Block>, s: Search, t: Search, x: Block, low: int, done: set<Block>)
    requires Scanning(g, nodes, s, t, x, low, done) && forall y :: g.Edge(x, y) ==> y in done
    ensures Leaving(g, nodes, s, t, x, low)
  {
    hide Sound, Reach;
    StackVisited(g, nodes, s);
    StackInside(g, nodes, s);
    assert t.stack[|s.stack|] == x;
  }

  lemma StackInside(g: Cfg, nodes: set<Block>, s: Search)
    requires Sound(g, nodes, s)
    ensures forall y :: y in s.stack ==> y in nodes
  {
    hide IsScc, NoWhiteEdge, GrayReaches, ReachesGray;
  }

  /** A search with no visit under way has closed everything it visited. */
  lemma AllClosed(g: Cfg, nodes: set<Block>, s: Search)
    requires Sound(g, nodes, s) && s.gray == {}
    ensures s.stack == []
    ensures forall x :: x in s.index ==> exists c :: c in s.sccs && x in c
    ensures forall c :: c in s.sccs ==> IsScc(g, nodes, c)
  {
    hide IsScc, NoWhiteEdge, GrayReaches, OnStack;
    assert s.stack != [] ==> HasGray(g, nodes, s, s.stack[0]);
  }
}
