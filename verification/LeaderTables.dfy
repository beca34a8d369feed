/** The tables of value numbering on its walk over the dominator tree: what makes a replacement right. */
module LeaderTables {
  import opened Graphs
  import opened DomTrees
  import opened DominatorAnalysis
  import opened ValueNumbering

  /** The instructions of each block; each is listed once in the function. */
  type Body = seq<seq<Val>>

  ghost predicate BodyOk(body: Body) {
    && (forall b: Block, i: nat :: b < |body| && i < |body[b]| ==> body[b][i].Instr? && body[b][i].WellFormed())
    && (forall b: Block, i: nat, c: Block, j: nat {:trigger body[b][i], body[c][j]} ::
          b < |body| && i < |body[b]| && c < |body| && j < |body[c]| && body[b][i] == body[c][j] ==> b == c && i == j)
  }

  ghost predicate InBlock(body: Body, b: Block, k: nat, v: Val) {
    b < |body| && exists i: nat :: i < k && i < |body[b]| && body[b][i] == v
  }

  ghost predicate InBlocks(body: Body, done: set<Block>, v: Val) {
    exists c :: c in done && c < |body| && InBlock(body, c, |body[c]|, v)
  }

  /** `v` stands in a block of `done`, or is one of the first `k` instructions of `b`. */
  ghost predicate Seen(body: Body, done: set<Block>, b: Block, k: nat, v: Val) {
    InBlocks(body, done, v) || InBlock(body, b, k, v)
  }

  /** `v` comes before instruction `k` of block `b`: in a block above it in the tree, or earlier in the block. */
  ghost predicate Above(t: Tree, post: Numbering, body: Body, b: Block, k: nat, v: Val)
    requires IsTree(t, post) && b in t
  {
    InBlocks(body, Anc(t, post, b) - {b}, v) || InBlock(body, b, k, v)
  }

  /** What an instruction may be replaced by: a constant, or an instruction that comes before it, of the same value. */
  ghost predicate Replaces(t: Tree, post: Numbering, body: Body, v: Val, r: Val)
    requires IsTree(t, post)
  {
    && SameValue(v, r)
    && (r.IsConstant() || exists b: Block, k: nat :: ReplacesAt(t, post, body, b, k, v, r))
  }

  ghost predicate ReplacesAt(t: Tree, post: Numbering, body: Body, b: Block, k: nat, v: Val, r: Val)
    requires IsTree(t, post)
  {
    b in t && b < |body| && k < |body[b]| && body[b][k] == v && Above(t, post, body, b, k, r)
  }

  // ----- the tables of the walk -----

  datatype Walk = Walk(numbers: map<Val, nat>, leaders: map<nat, Val>, history: seq<(nat, Val)>, replace: map<Val, Val>)

  /** The history lists the bound numbers with their leaders, each once. */
  ghost predicate HistoryOk(g: Walk) {
    && (forall i :: 0 <= i < |g.history| ==> g.history[i].0 in g.leaders && g.leaders[g.history[i].0] == g.history[i].1)
    && (forall i, j :: 0 <= i < j < |g.history| ==> g.history[i].0 != g.history[j].0)
    && (forall n :: n in g.leaders ==> exists i :: 0 <= i < |g.history| && g.history[i].0 == n)
  }

  /** A leader has the number it leads, comes before what is looked at, and has not been replaced itself. */
  ghost predicate LeaderOk(t: Tree, post: Numbering, body: Body, b: Block, k: nat, g: Walk, n: nat)
    requires IsTree(t, post) && b in t && n in g.leaders
  {
    var v := g.leaders[n];
    v.Instr? && v in g.numbers && g.numbers[v] == n && v !in g.replace && Above(t, post, body, b, k, v)
  }

  ghost predicate ReplacedOk(t: Tree, post: Numbering, body: Body, done: set<Block>, b: Block, k: nat, g: Walk, v: Val)
    requires IsTree(t, post) && v in g.replace
  {
    && Seen(body, done, b, k, v) && Replaces(t, post, body, v, g.replace[v])
    && (g.replace[v].Instr? ==> g.replace[v] !in g.replace && Seen(body, done, b, k, g.replace[v]))
  }

  ghost predicate Walking(t: Tree, post: Numbering, body: Body, done: set<Block>, b: Block, k: nat, g: Walk)
    requires IsTree(t, post) && b in t
  {
    && HistoryOk(g)
    && (forall n :: n in g.leaders ==> LeaderOk(t, post, body, b, k, g, n) && Seen(body, done, b, k, g.leaders[n]))
    && (forall v :: v in g.replace ==> ReplacedOk(t, post, body, done, b, k, g, v))
  }

  lemma SeenMore(body: Body, done: set<Block>, b: Block, k: nat, v: Val)
    requires Seen(body, done, b, k, v)
    ensures Seen(body, done, b, k + 1, v)
  {
  }

  lemma AboveMore(t: Tree, post: Numbering, body: Body, b: Block, k: nat, v: Val)
    requires IsTree(t, post) && b in t && Above(t, post, body, b, k, v)
    ensures Above(t, post, body, b, k + 1, v)
  {
  }

  /** The next instruction has not been seen. */
  lemma NotSeen(body: Body, done: set<Block>, b: Block, k: nat)
    requires BodyOk(body) && b !in done && b < |body| && k < |body[b]|
    ensures !Seen(body, done, b, k, body[b][k])
    ensures InBlock(body, b, k + 1, body[b][k])
  {
  }

  /** Passing over an instruction; more values may have been numbered. */
  lemma PassOver(t: Tree, post: Numbering, body: Body, done: set<Block>, b: Block, k: nat, g: Walk, g': Walk)
    requires IsTree(t, post) && b in t && Walking(t, post, body, done, b, k, g)
    requires g' == g.(numbers := g'.numbers)
    requires forall v :: v in g.numbers ==> v in g'.numbers && g'.numbers[v] == g.numbers[v]
    ensures Walking(t, post, body, done, b, k + 1, g')
  {
    hide Seen, Above, Replaces;
    forall n | n in g'.leaders
      ensures LeaderOk(t, post, body, b, k + 1, g', n) && Seen(body, done, b, k + 1, g'.leaders[n])
    {
      assert LeaderOk(t, post, body, b, k, g, n);
      AboveMore(t, post, body, b, k, g.leaders[n]);
      SeenMore(body, done, b, k, g.leaders[n]);
    }
    forall v | v in g'.replace
      ensures ReplacedOk(t, post, body, done, b, k + 1, g', v)
    {
      assert ReplacedOk(t, post, body, done, b, k, g, v);
      SeenMore(body, done, b, k, v);
      if g.replace[v].Instr? {
        SeenMore(body, done, b, k, g.replace[v]);
      }
    }
  }

  /** Replacing the instruction just passed. */
  lemma ReplaceHere(t: Tree, post: Numbering, body: Body, done: set<Block>, b: Block, k: nat, g: Walk, g0: Walk, r: Val)
    requires IsTree(t, post) && b in t && b !in done && BodyOk(body) && b < |body| && k < |body[b]|
    requires Walking(t, post, body, done, b, k, g0) && g.leaders == g0.leaders && g.replace == g0.replace
    requires Walking(t, post, body, done, b, k + 1, g) && SameValue(body[b][k], r)
    requires r.IsConstant() || (r.Instr? && r in g.leaders.Values)
    ensures Walking(t, post, body, done, b, k + 1, g.(replace := g.replace[body[b][k] := r]))
  {
    hide Seen, Above, SameValue;
    var v := body[b][k];
    var g' := g.(replace := g.replace[v := r]);
    NotSeen(body, done, b, k);
    SeenHere(body, done, b, k);
    if r.Instr? {
      var n :| n in g.leaders && g.leaders[n] == r;
      assert LeaderOk(t, post, body, b, k, g0, n) && Seen(body, done, b, k, r);
      assert LeaderOk(t, post, body, b, k + 1, g, n) && Seen(body, done, b, k + 1, r);
      assert ReplacesAt(t, post, body, b, k, v, r);
    }
    forall n | n in g'.leaders
      ensures LeaderOk(t, post, body, b, k + 1, g', n) && Seen(body, done, b, k + 1, g'.leaders[n])
    {
      assert Seen(body, done, b, k, g0.leaders[n]);
      assert LeaderOk(t, post, body, b, k + 1, g, n);
    }
    forall x | x in g'.replace
      ensures ReplacedOk(t, post, body, done, b, k + 1, g', x)
    {
      if x != v {
        assert ReplacedOk(t, post, body, done, b, k, g0, x);
        assert ReplacedOk(t, post, body, done, b, k + 1, g, x);
      }
    }
  }

  lemma SeenHere(body: Body, done: set<Block>, b: Block, k: nat)
    requires b < |body| && k < |body[b]|
    ensures Seen(body, done, b, k + 1, body[b][k])
  {
  }

  /** Making the instruction just passed the leader of its number. */
  lemma LeadHere(t: Tree, post: Numbering, body: Body, done: set<Block>, b: Block, k: nat, g: Walk, g0: Walk, n: nat)
    requires IsTree(t, post) && b in t && b !in done && BodyOk(body) && b < |body| && k < |body[b]|
    requires Walking(t, post, body, done, b, k, g0) && g.replace == g0.replace && g.leaders == g0.leaders
    requires Walking(t, post, body, done, b, k + 1, g) && n !in g.leaders
    requires body[b][k] in g.numbers && g.numbers[body[b][k]] == n && body[b][k] !in g.replace
    ensures Walking(t, post, body, done, b, k + 1,
                    g.(leaders := g.leaders[n := body[b][k]], history := g.history + [(n, body[b][k])]))
  {
    hide Seen, Above, Replaces;
    var v := body[b][k];
    var g' := g.(leaders := g.leaders[n := v], history := g.history + [(n, v)]);
    SeenHere(body, done, b, k);
    AboveHere(t, post, body, b, k);
    HistoryMore(g, n, v);
    forall m | m in g'.leaders
      ensures LeaderOk(t, post, body, b, k + 1, g', m) && Seen(body, done, b, k + 1, g'.leaders[m])
    {
      if m != n {
        assert LeaderOk(t, post, body, b, k + 1, g, m);
      }
    }
    forall x | x in g'.replace
      ensures ReplacedOk(t, post, body, done, b, k + 1, g', x)
    {
      assert ReplacedOk(t, post, body, done, b, k + 1, g, x);
    }
  }

  lemma AboveHere(t: Tree, post: Numbering, body: Body, b: Block, k: nat)
    requires IsTree(t, post) && b in t && b < |body| && k < |body[b]|
    ensures Above(t, post, body, b, k + 1, body[b][k])
  {
  }

  lemma HistoryMore(g: Walk, n: nat, v: Val)
    requires HistoryOk(g) && n !in g.leaders
    ensures HistoryOk(g.(leaders := g.leaders[n := v], history := g.history + [(n, v)]))
  {
    var g' := g.(leaders := g.leaders[n := v], history := g.history + [(n, v)]);
    forall m | m in g'.leaders
      ensures exists i :: 0 <= i < |g'.history| && g'.history[i].0 == m
    {
      if m == n {
        assert g'.history[|g.history|].0 == n;
      } else {
        var i :| 0 <= i < |g.history| && g.history[i].0 == m;
        assert g'.history[i].0 == m;
      }
    }
  }

  /** Undoing the last binding. */
  lemma HistoryLess(g: Walk)
    requires HistoryOk(g) && |g.history| > 0
    ensures var last := |g.history| - 1;
            HistoryOk(g.(leaders := g.leaders - {g.history[last].0}, history := g.history[..last]))
  {
    var last := |g.history| - 1;
    var g' := g.(leaders := g.leaders - {g.history[last].0}, history := g.history[..last]);
    forall m | m in g'.leaders
      ensures exists i :: 0 <= i < |g'.history| && g'.history[i].0 == m
    {
      var i :| 0 <= i < |g.history| && g.history[i].0 == m;
      assert g'.history[i].0 == m;
    }
  }

  /** The history determines the leaders. */
  lemma SameHistory(g: Walk, g': Walk)
    requires HistoryOk(g) && HistoryOk(g') && g.history == g'.history
    ensures g.leaders == g'.leaders
  {
    hide HistoryOk;
    forall n | n in g.leaders
      ensures n in g'.leaders && g'.leaders[n] == g.leaders[n]
    {
      Bound(g, g', n);
    }
    forall n | n in g'.leaders
      ensures n in g.leaders
    {
      Bound(g', g, n);
    }
  }

  lemma Bound(g: Walk, g': Walk, n: nat)
    requires HistoryOk(g) && HistoryOk(g') && g.history == g'.history && n in g.leaders
    ensures n in g'.leaders && g'.leaders[n] == g.leaders[n]
  {
    var i :| 0 <= i < |g.history| && g.history[i].0 == n;
  }

  // ----- going down and up the tree -----

  lemma InBlocksMono(body: Body, done: set<Block>, more: set<Block>, v: Val)
    requires done <= more && InBlocks(body, done, v)
    ensures InBlocks(body, more, v)
  {
    hide InBlock;
  }

  lemma SeenWhole(body: Body, done: set<Block>, b: Block, v: Val)
    requires b < |body| && Seen(body, done, b, |body[b]|, v)
    ensures InBlocks(body, done + {b}, v)
  {
    hide InBlock;
    if InBlocks(body, done, v) {
      InBlocksMono(body, done, done + {b}, v);
    }
  }

  /** Entering a child: everything above `b`, and `b`, is above the child. */
  lemma GoDown(t: Tree, post: Numbering, body: Body, done: set<Block>, b: Block, c: Block, g: Walk)
    requires IsTree(t, post) && b in t && c in t && c != ENTRY && Parent(t, c) == b && b < |body| && b in done
    requires Walking(t, post, body, done, b, |body[b]|, g)
    ensures Walking(t, post, body, done, c, 0, g)
  {
    hide Above, Replaces, InBlocks;
    forall n | n in g.leaders
      ensures LeaderOk(t, post, body, c, 0, g, n) && Seen(body, done, c, 0, g.leaders[n])
    {
      assert LeaderOk(t, post, body, b, |body[b]|, g, n);
      AboveChild(t, post, body, b, c, g.leaders[n]);
      SeenAll(body, done, b, c, g.leaders[n]);
    }
    forall v | v in g.replace
      ensures ReplacedOk(t, post, body, done, c, 0, g, v)
    {
      assert ReplacedOk(t, post, body, done, b, |body[b]|, g, v);
      SeenAll(body, done, b, c, v);
      if g.replace[v].Instr? {
        SeenAll(body, done, b, c, g.replace[v]);
      }
    }
  }

  lemma SeenAll(body: Body, done: set<Block>, b: Block, c: Block, v: Val)
    requires b < |body| && b in done && Seen(body, done, b, |body[b]|, v)
    ensures Seen(body, done, c, 0, v)
  {
    SeenWhole(body, done, b, v);
    assert done + {b} == done;
  }

  lemma AboveChild(t: Tree, post: Numbering, body: Body, b: Block, c: Block, v: Val)
    requires IsTree(t, post) && b in t && c in t && c != ENTRY && Parent(t, c) == b && b < |body|
    requires Above(t, post, body, b, |body[b]|, v)
    ensures Above(t, post, body, c, 0, v)
  {
    hide InBlock;
    AncAbove(t, post, c, b);
    if c in Anc(t, post, b) {
      AncAbove(t, post, b, c);
    }
    assert Anc(t, post, b) <= Anc(t, post, c) - {c};
  }

  /** Coming back from a child with the bindings of `b` restored. */
  lemma GoUp(t: Tree, post: Numbering, body: Body, done: set<Block>, done': set<Block>, b: Block, g: Walk, g': Walk)
    requires IsTree(t, post) && b in t && b in done && done <= done'
    requires b < |body| && Walking(t, post, body, done, b, |body[b]|, g)
    requires g'.leaders == g.leaders && g'.history == g.history
    requires forall v :: v in g.numbers ==> v in g'.numbers && g'.numbers[v] == g.numbers[v]
    requires forall v :: v in g'.replace ==> ReplacedOk(t, post, body, done', b, 0, g', v)
    requires forall n :: n in g.leaders ==> g.leaders[n] !in g'.replace
    ensures Walking(t, post, body, done', b, |body[b]|, g')
  {
    hide Above, Replaces, InBlocks, InBlock;
    forall n | n in g'.leaders
      ensures LeaderOk(t, post, body, b, |body[b]|, g', n) && Seen(body, done', b, |body[b]|, g'.leaders[n])
    {
      assert LeaderOk(t, post, body, b, |body[b]|, g, n) && Seen(body, done, b, |body[b]|, g.leaders[n]);
      SeenGrows(body, done, done', b, |body[b]|, |body[b]|, g.leaders[n]);
    }
    forall v | v in g'.replace
      ensures ReplacedOk(t, post, body, done', b, |body[b]|, g', v)
    {
      assert ReplacedOk(t, post, body, done', b, 0, g', v);
      SeenGrows(body, done', done', b, 0, |body[b]|, v);
      if g'.replace[v].Instr? {
        SeenGrows(body, done', done', b, 0, |body[b]|, g'.replace[v]);
      }
    }
  }

  lemma SeenGrows(body: Body, done: set<Block>, done': set<Block>, b: Block, k: nat, k': nat, v: Val)
    requires Seen(body, done, b, k, v) && done <= done' && k <= k'
    ensures Seen(body, done', b, k', v)
  {
    if InBlocks(body, done, v) {
      InBlocksMono(body, done, done', v);
    }
  }

  // ----- the walk -----

  /** The dominator tree, its child lists, and the code. */
  ghost predicate Shape(t: Tree, post: Numbering, body: Body, domTreeSucc: map<Block, set<Block>>) {
    && IsTree(t, post) && BodyOk(body) && domTreeSucc.Keys == t.Keys
    && (forall b: Block :: b in t <==> b < |body|) && ChildrenBelow(t, domTreeSucc, |body|)
  }

  /** What a finished walk below `b` leaves: bindings as before, replacements in the blocks visited. */
  ghost predicate Walked(t: Tree, post: Numbering, body: Body, done: set<Block>, done': set<Block>, b: Block,
                         g: Walk, g': Walk)
    requires IsTree(t, post) && b in t
  {
    && done' == done + Subtree(t, post, b)
    && g'.leaders == g.leaders && g'.history == g.history
    && (forall v :: v in g.numbers ==> v in g'.numbers && g'.numbers[v] == g.numbers[v])
    && (forall v :: v in g'.replace ==> ReplacedOk(t, post, body, done', b, 0, g', v))
    && (forall n :: n in g.leaders ==> g.leaders[n] !in g'.replace)
  }

  /** While the children are visited: the same, seen from the end of `b`. */
  ghost predicate BetweenChildren(t: Tree, post: Numbering, body: Body, done: set<Block>, done': set<Block>, b: Block,
                                  children: set<Block>, g: Walk, g': Walk)
    requires IsTree(t, post) && b in t
  {
    && done + {b} <= done'
    && (forall x :: x in done' ==> x in done || x == b || exists c :: c in children && c in t && x in Subtree(t, post, c))
    && (forall c :: c in children && c in t ==> Subtree(t, post, c) <= done')
    && b < |body| && Walking(t, post, body, done', b, |body[b]|, g')
    && g'.leaders == g.leaders && g'.history == g.history
    && (forall v :: v in g.numbers ==> v in g'.numbers && g'.numbers[v] == g.numbers[v])
  }
}
