/** What value numbering leaves in place: nothing that could be folded, and no value that already stands above. */
module Survivors {
  import opened Graphs
  import opened DomTrees
  import opened ValueNumbering
  import opened LeaderTables

  type Consts = map<nat, Val>

  /** `w` has another number than `v`, or has been replaced. */
  predicate Apart(g: Walk, v: Val, w: Val)
    requires v in g.numbers
  {
    w in g.replace || (w in g.numbers && g.numbers[w] != g.numbers[v])
  }

  /** An instruction that has been dealt with: it defines nothing, or has been replaced, or is no known constant and
      apart from everything above it. */
  ghost predicate Dealt(t: Tree, post: Numbering, body: Body, isVoid: Val -> bool, b: Block, k: nat, g: Walk,
                        consts: Consts)
    requires IsTree(t, post) && b in t && b < |body| && k < |body[b]|
  {
    var v := body[b][k];
    isVoid(v) || v in g.replace ||
    (v in g.numbers && g.numbers[v] !in consts &&
     forall w :: Above(t, post, body, b, k, w) && !isVoid(w) ==> Apart(g, v, w))
  }

  ghost predicate DealtUpTo(t: Tree, post: Numbering, body: Body, isVoid: Val -> bool, b: Block, k: nat, g: Walk,
                            consts: Consts)
    requires IsTree(t, post)
  {
    b in t && b < |body| && forall j: nat :: j < k && j < |body[b]| ==> Dealt(t, post, body, isVoid, b, j, g, consts)
  }

  ghost predicate DealtIn(t: Tree, post: Numbering, body: Body, isVoid: Val -> bool, done: set<Block>, g: Walk,
                          consts: Consts)
    requires IsTree(t, post)
  {
    forall c :: c in done ==> c < |body| && DealtUpTo(t, post, body, isVoid, c, |body[c]|, g, consts)
  }

  /** Everything above has been replaced or goes by the number of a leader. */
  ghost predicate LeadsAbove(t: Tree, post: Numbering, body: Body, isVoid: Val -> bool, b: Block, k: nat, g: Walk)
    requires IsTree(t, post) && b in t
  {
    forall w :: Above(t, post, body, b, k, w) && !isVoid(w) ==>
      w in g.replace || (w in g.numbers && g.numbers[w] in g.leaders)
  }

  /** More numbers, constants and replacements, and no number given before has become that of a constant. */
  ghost predicate Grows(g: Walk, consts: Consts, g': Walk, consts': Consts) {
    && (forall v :: v in g.numbers ==> v in g'.numbers && g'.numbers[v] == g.numbers[v])
    && (forall v :: v in g.replace ==> v in g'.replace)
    && (forall v :: v in g.numbers && g.numbers[v] in consts' ==> g.numbers[v] in consts)
    && (forall n :: n in consts ==> n in consts' && consts'[n] == consts[n])
  }

  /** What stands for a value has its number. */
  ghost predicate SameNumbers(g: Walk, consts: Consts) {
    forall v :: v in g.replace ==>
      && v.Instr? && v in g.numbers && g.replace[v] in g.numbers && g.numbers[g.replace[v]] == g.numbers[v]
      && (g.replace[v].IsConstant() ==> g.numbers[v] in consts && consts[g.numbers[v]] == g.replace[v])
      && (g.replace[v].IsConstant() || g.replace[v].Instr?)
  }

  lemma SameNumbersStay(g: Walk, consts: Consts, g': Walk, consts': Consts)
    requires SameNumbers(g, consts) && Grows(g, consts, g', consts') && g'.replace == g.replace
    ensures SameNumbers(g', consts')
  {
  }

  /** Replacing one more value by what has its number. */
  lemma SameNumbersMore(g: Walk, consts: Consts, v: Val, r: Val)
    requires SameNumbers(g, consts) && v.Instr? && v in g.numbers && r in g.numbers && g.numbers[r] == g.numbers[v]
    requires r.Instr? || (r.IsConstant() && g.numbers[v] in consts && consts[g.numbers[v]] == r)
    ensures SameNumbers(g.(replace := g.replace[v := r]), consts)
  {
  }

  lemma GrowsTrans(g: Walk, consts: Consts, g': Walk, consts': Consts, g'': Walk, consts'': Consts)
    requires Grows(g, consts, g', consts') && Grows(g', consts', g'', consts'')
    ensures Grows(g, consts, g'', consts'')
  {
  }

  lemma GrowsSelf(g: Walk, consts: Consts, g': Walk)
    requires g'.numbers == g.numbers && g'.replace == g.replace
    ensures Grows(g, consts, g', consts)
  {
  }

  lemma NumbersGrow(u: Tables, rep: map<nat, Val>, u': Tables, rep': map<nat, Val>, g: Walk, g': Walk)
    requires Sound(u, rep) && Extends(u, rep, u', rep') && g.numbers == u.numbers && g'.numbers == u'.numbers
    requires forall v :: v in g.replace ==> v in g'.replace
    ensures Grows(g, u.consts, g', u'.consts)
  {
    hide SameValue, ExprSound;
  }

  lemma DealtStays(t: Tree, post: Numbering, body: Body, isVoid: Val -> bool, done: set<Block>, g: Walk, consts: Consts,
                   g': Walk, consts': Consts)
    requires IsTree(t, post) && DealtIn(t, post, body, isVoid, done, g, consts) && Grows(g, consts, g', consts')
    ensures DealtIn(t, post, body, isVoid, done, g', consts')
  {
    hide IsTree, Grows, Dealt;
    forall c | c in done
      ensures c < |body| && DealtUpTo(t, post, body, isVoid, c, |body[c]|, g', consts')
    {
      DealtUpToStays(t, post, body, isVoid, c, |body[c]|, g, consts, g', consts');
    }
  }

  lemma DealtUpToStays(t: Tree, post: Numbering, body: Body, isVoid: Val -> bool, b: Block, k: nat, g: Walk,
                       consts: Consts, g': Walk, consts': Consts)
    requires IsTree(t, post) && DealtUpTo(t, post, body, isVoid, b, k, g, consts) && Grows(g, consts, g', consts')
    ensures DealtUpTo(t, post, body, isVoid, b, k, g', consts')
  {
    hide IsTree, Above;
    forall j: nat | j < k && j < |body[b]|
      ensures Dealt(t, post, body, isVoid, b, j, g', consts')
    {
      assert Dealt(t, post, body, isVoid, b, j, g, consts);
    }
  }

  /** What looking at one instruction does: it is replaced by the leader of its number or the constant known for it, or
      else leads its number. */
  predicate Scanned(g: Walk, g': Walk, consts': Consts, isVoid: Val -> bool, v: Val) {
    if isVoid(v) || v in g.replace then g' == g
    else
      v in g'.numbers &&
      var n := g'.numbers[v];
      g'.(numbers := g.numbers) ==
      if n in g.leaders then g.(replace := g.replace[v := g.leaders[n]])
      else if n in consts' then g.(replace := g.replace[v := consts'[n]])
      else g.(leaders := g.leaders[n := v], history := g.history + [(n, v)])
  }

  /** One more instruction has been dealt with: if it leads a number, nothing above it had that number. */
  lemma DealtHere(t: Tree, post: Numbering, body: Body, isVoid: Val -> bool, b: Block, k: nat, g: Walk, consts: Consts,
                  g': Walk, consts': Consts)
    requires IsTree(t, post) && DealtUpTo(t, post, body, isVoid, b, k, g, consts) && Grows(g, consts, g', consts')
    requires LeadsAbove(t, post, body, isVoid, b, k, g) && k < |body[b]|
    requires Scanned(g, g', consts', isVoid, body[b][k])
    ensures DealtUpTo(t, post, body, isVoid, b, k + 1, g', consts') && LeadsAbove(t, post, body, isVoid, b, k + 1, g')
  {
    hide IsTree, Dealt, InBlock, InBlocks, Above;
    DealtUpToStays(t, post, body, isVoid, b, k, g, consts, g', consts');
    NowDealt(t, post, body, isVoid, b, k, g, consts, g', consts');
    forall w | Above(t, post, body, b, k + 1, w) && !isVoid(w)
      ensures w in g'.replace || (w in g'.numbers && g'.numbers[w] in g'.leaders)
    {
      AboveBack(t, post, body, b, k, w);
    }
  }

  lemma NowDealt(t: Tree, post: Numbering, body: Body, isVoid: Val -> bool, b: Block, k: nat, g: Walk, consts: Consts,
                 g': Walk, consts': Consts)
    requires IsTree(t, post) && Grows(g, consts, g', consts')
    requires b in t && b < |body| && LeadsAbove(t, post, body, isVoid, b, k, g) && k < |body[b]|
    requires var v := body[b][k];
             isVoid(v) || v in g'.replace ||
             (v in g'.numbers && g'.numbers[v] !in g.leaders && g'.numbers[v] !in consts')
    ensures Dealt(t, post, body, isVoid, b, k, g', consts')
  {
    hide IsTree, Above;
  }

  lemma AboveBack(t: Tree, post: Numbering, body: Body, b: Block, k: nat, w: Val)
    requires IsTree(t, post) && b in t && b < |body| && k < |body[b]| && Above(t, post, body, b, k + 1, w)
    ensures Above(t, post, body, b, k, w) || w == body[b][k]
  {
    hide IsTree, InBlocks;
  }

  /** Nothing stands above the entry block. */
  lemma NothingAbove(t: Tree, post: Numbering, body: Body, isVoid: Val -> bool, g: Walk)
    requires IsTree(t, post) && ENTRY in t
    ensures LeadsAbove(t, post, body, isVoid, ENTRY, 0, g)
  {
    assert Anc(t, post, ENTRY) - {ENTRY} == {};
  }

  /** What stands above a child stands above the end of its parent. */
  lemma LeadsChild(t: Tree, post: Numbering, body: Body, isVoid: Val -> bool, b: Block, c: Block, g: Walk)
    requires IsTree(t, post) && b in t && c in t && c != ENTRY && Parent(t, c) == b && b < |body|
    requires LeadsAbove(t, post, body, isVoid, b, |body[b]|, g)
    ensures LeadsAbove(t, post, body, isVoid, c, 0, g)
  {
    hide Above, IsTree;
    forall w | Above(t, post, body, c, 0, w) && !isVoid(w)
      ensures w in g.replace || (w in g.numbers && g.numbers[w] in g.leaders)
    {
      AboveParent(t, post, body, b, c, w);
    }
  }

  lemma AboveParent(t: Tree, post: Numbering, body: Body, b: Block, c: Block, w: Val)
    requires IsTree(t, post) && b in t && c in t && c != ENTRY && Parent(t, c) == b && b < |body|
    requires Above(t, post, body, c, 0, w)
    ensures Above(t, post, body, b, |body[b]|, w)
  {
    assert !InBlock(body, c, 0, w);
    hide InBlock;
    SubtreeOfChild(t, post, b, c);
    var d :| d in Anc(t, post, c) - {c} && d < |body| && InBlock(body, d, |body[d]|, w);
    assert d in Anc(t, post, b);
  }

  /** The bindings are as they were when the walk went down. */
  lemma LeadsAgain(t: Tree, post: Numbering, body: Body, isVoid: Val -> bool, b: Block, k: nat, g: Walk, consts: Consts,
                   g': Walk, consts': Consts)
    requires IsTree(t, post) && b in t && LeadsAbove(t, post, body, isVoid, b, k, g) && Grows(g, consts, g', consts')
    requires g'.leaders == g.leaders
    ensures LeadsAbove(t, post, body, isVoid, b, k, g')
  {
    hide Above, IsTree;
  }

  lemma DealtWhole(t: Tree, post: Numbering, body: Body, isVoid: Val -> bool, done: set<Block>, b: Block, g: Walk,
                   consts: Consts)
    requires IsTree(t, post) && DealtIn(t, post, body, isVoid, done, g, consts) && b < |body|
    requires DealtUpTo(t, post, body, isVoid, b, |body[b]|, g, consts)
    ensures DealtIn(t, post, body, isVoid, done + {b}, g, consts)
  {
    hide IsTree, Dealt;
  }

  /** Everything in the finished blocks, and in `b` before `k`, has been dealt with. */
  ghost predicate Thorough(t: Tree, post: Numbering, body: Body, isVoid: Val -> bool, done: set<Block>, b: Block,
                           k: nat, g: Walk, consts: Consts)
    requires IsTree(t, post) && b in t
  {
    && DealtIn(t, post, body, isVoid, done, g, consts)
    && DealtUpTo(t, post, body, isVoid, b, k, g, consts)
    && LeadsAbove(t, post, body, isVoid, b, k, g)
  }

  lemma ThoroughStart(t: Tree, post: Numbering, body: Body, isVoid: Val -> bool, done: set<Block>, b: Block, g: Walk,
                      consts: Consts)
    requires IsTree(t, post) && b in t && b < |body|
    requires DealtIn(t, post, body, isVoid, done, g, consts) && LeadsAbove(t, post, body, isVoid, b, 0, g)
    ensures Thorough(t, post, body, isVoid, done, b, 0, g, consts)
  {
  }

  lemma ThoroughStep(t: Tree, post: Numbering, body: Body, isVoid: Val -> bool, done: set<Block>, b: Block, k: nat,
                     g: Walk, consts: Consts, g': Walk, consts': Consts)
    requires IsTree(t, post) && b in t && b < |body| && k < |body[b]| && Grows(g, consts, g', consts')
    requires Thorough(t, post, body, isVoid, done, b, k, g, consts) && Scanned(g, g', consts', isVoid, body[b][k])
    ensures Thorough(t, post, body, isVoid, done, b, k + 1, g', consts')
  {
    hide IsTree, Scanned, Grows, DealtIn, DealtUpTo, LeadsAbove;
    DealtStays(t, post, body, isVoid, done, g, consts, g', consts');
    DealtHere(t, post, body, isVoid, b, k, g, consts, g', consts');
  }

  lemma ThoroughEnd(t: Tree, post: Numbering, body: Body, isVoid: Val -> bool, done: set<Block>, b: Block, g: Walk,
                    consts: Consts)
    requires IsTree(t, post) && b in t && b < |body|
    requires Thorough(t, post, body, isVoid, done, b, |body[b]|, g, consts)
    ensures DealtIn(t, post, body, isVoid, done + {b}, g, consts) && LeadsAbove(t, post, body, isVoid, b, |body[b]|, g)
  {
    hide IsTree, DealtIn, DealtUpTo, LeadsAbove;
    DealtWhole(t, post, body, isVoid, done, b, g, consts);
  }

  // ----- the finished function -----

  /** `w` comes before instruction `k` of block `b` on every way to it. */
  ghost predicate ComesBefore(g: Cfg, body: Body, b: Block, k: nat, w: Val) {
    || InBlock(body, b, k, w)
    || exists c: Block :: g.StrictlyDominates(c, b) && c < |body| && InBlock(body, c, |body[c]|, w)
  }

  /** An instruction that defines a value and is kept is no known constant, and nothing with its number comes before
      it and is kept. */
  ghost predicate Distinct(g: Cfg, body: Body, isVoid: Val -> bool, replace: map<Val, Val>, u: Tables, b: Block, k: nat)
    requires b < |body| && k < |body[b]|
  {
    var v := body[b][k];
    !isVoid(v) && v !in replace ==>
      && v in u.numbers && u.numbers[v] !in u.consts
      && forall w :: ComesBefore(g, body, b, k, w) && !isVoid(w) && w !in replace ==>
           w in u.numbers && u.numbers[w] != u.numbers[v]
  }

  lemma AllDistinct(cfg: Cfg, t: Tree, post: Numbering, body: Body, isVoid: Val -> bool, g: Walk, u: Tables, b: Block,
                    k: nat)
    requires IsTree(t, post) && PostOrdered(cfg, post) && Fixpoint(cfg, t, post) && KeepsDominators(cfg, t)
    requires b in t && b < |body| && k < |body[b]| && Dealt(t, post, body, isVoid, b, k, g, u.consts)
    requires g.numbers == u.numbers
    ensures Distinct(cfg, body, isVoid, g.replace, u, b, k)
  {
    hide PostOrdered, Fixpoint, KeepsDominators, IsTree, InBlock, Above, ComesBefore;
    var v := body[b][k];
    if !isVoid(v) && v !in g.replace {
      forall w | ComesBefore(cfg, body, b, k, w) && !isVoid(w) && w !in g.replace
        ensures w in g.numbers && g.numbers[w] != g.numbers[v]
      {
        BeforeIsAbove(cfg, t, post, body, b, k, w);
      }
    }
  }

  lemma BeforeIsAbove(cfg: Cfg, t: Tree, post: Numbering, body: Body, b: Block, k: nat, w: Val)
    requires IsTree(t, post) && PostOrdered(cfg, post) && Fixpoint(cfg, t, post) && KeepsDominators(cfg, t)
    requires b in t && ComesBefore(cfg, body, b, k, w)
    ensures Above(t, post, body, b, k, w)
  {
    hide PostOrdered, Fixpoint, KeepsDominators, IsTree, InBlock;
    if !InBlock(body, b, k, w) {
      var c: Block :| cfg.StrictlyDominates(c, b) && c < |body| && InBlock(body, c, |body[c]|, w);
      AncestorsAreDominators(cfg, t, post, b, c);
      assert c in Anc(t, post, b) - {b};
    }
  }

  predicate KeptOperation(body: Body, isVoid: Val -> bool, replace: map<Val, Val>, b: Block, k: nat) {
    b < |body| && k < |body[b]| &&
    var v := body[b][k]; !isVoid(v) && v !in replace && v.Instr? && v.WellFormed() && v.op != Fresh
  }

  /** What the operands have become. */
  function AfterAll(replace: map<Val, Val>, vs: seq<Val>): (r: seq<Val>)
    ensures |r| == |vs|
    ensures forall i :: 0 <= i < |vs| ==> r[i] == if vs[i] in replace then replace[vs[i]] else vs[i]
  {
    seq(|vs|, i requires 0 <= i < |vs| => if vs[i] in replace then replace[vs[i]] else vs[i])
  }

  /** The same operation on the same operands; or on swapped ones, if it commutes, or if it is a comparison and the other
      the mirrored one. */
  ghost predicate Twins(replace: map<Val, Val>, v: Val, w: Val)
    requires v.Instr? && w.Instr? && v.WellFormed() && w.WellFormed()
  {
    var xs, ys := AfterAll(replace, v.operands), AfterAll(replace, w.operands);
    v.ty == w.ty &&
    (|| (v.op == w.op && xs == ys)
     || (v.op == w.op && v.op in {Add, Mul, Cmp(Eq), Cmp(Ne)} && xs == [ys[1], ys[0]])
     || (v.op.Cmp? && w.op == Cmp(Swapped(v.op.cmp)) && xs == [ys[1], ys[0]] && !SameValue(v.operands[0], v.operands[1])))
  }

  /** An operation that is kept cannot be folded, now that its operands have been replaced, and nothing that comes
      before it and is kept computes the same. */
  ghost predicate Irredundant(g: Cfg, body: Body, isVoid: Val -> bool, replace: map<Val, Val>) {
    forall b: Block, k: nat :: KeptOperation(body, isVoid, replace, b, k) ==>
      && !Folds(body[b][k].op, AfterAll(replace, body[b][k].operands))
      && NoTwinBefore(g, body, isVoid, replace, b, k)
  }

  ghost predicate NoTwinBefore(g: Cfg, body: Body, isVoid: Val -> bool, replace: map<Val, Val>, b: Block, k: nat)
    requires KeptOperation(body, isVoid, replace, b, k)
  {
    forall c: Block, j: nat :: KeptOperation(body, isVoid, replace, c, j) && ComesBefore(g, body, b, k, body[c][j]) ==>
      !Twins(replace, body[b][k], body[c][j])
  }

  /** What a kept operation's operands have become goes by their numbers. */
  lemma NumbersAfter(g: Walk, u: Tables, v: Val)
    requires SameNumbers(g, u.consts) && g.numbers == u.numbers && v.Instr? && OperandsNumbered(u, v)
    ensures NumbersOf(u, AfterAll(g.replace, v.operands)) == NumbersOf(u, v.operands)
  {
  }

  lemma NotFolded(g: Walk, u: Tables, v: Val)
    requires SameNumbers(g, u.consts) && g.numbers == u.numbers && v.Instr? && OperandsNumbered(u, v)
    requires Folds(v.op, AfterAll(g.replace, v.operands))
    ensures Folds(v.op, KnownAs(u, v.operands))
  {
    forall i | 0 <= i < |v.operands|
      ensures KnownAs(u, v.operands)[i] == AfterAll(g.replace, v.operands)[i]
    {
      assert v.operands[i] in u.numbers;
    }
  }

  /** Operations that compute the same have the same expression. */
  lemma TwinsShare(g: Walk, u: Tables, rep: map<nat, Val>, v: Val, w: Val)
    requires SameNumbers(g, u.consts) && g.numbers == u.numbers && Sound(u, rep)
    requires v.Instr? && w.Instr? && v.WellFormed() && w.WellFormed() && Twins(g.replace, v, w)
    requires OperandsNumbered(u, v) && OperandsNumbered(u, w)
    ensures ExprOf(u, v) == ExprOf(u, w)
  {
    hide Sound, SameNumbers, SameValue, FinalizeExpression;
    NumbersAfter(g, u, v);
    NumbersAfter(g, u, w);
    var xs, ys := AfterAll(g.replace, v.operands), AfterAll(g.replace, w.operands);
    if !(v.op == w.op && xs == ys) {
      var a := NumbersOf(u, w.operands);
      assert NumbersOf(u, v.operands) == [a[1], a[0]];
      assert a == [a[0], a[1]];
      if v.op.Cmp? && a[0] == a[1] && !SameValue(v.operands[0], v.operands[1]) {
        EqualNumbersEqualValues(u, rep, v.operands[0], v.operands[1]);
      }
      FinalizeCanonical(v.op, a[1], a[0], v.ty);
    }
  }

  /** In the finished function, nothing that is kept is redundant. */
  lemma NothingRedundant(g: Cfg, body: Body, isVoid: Val -> bool, walk: Walk, u: Tables, rep: map<nat, Val>)
    requires SameNumbers(walk, u.consts) && walk.numbers == u.numbers && Sound(u, rep) && Listed(u)
    requires forall b: Block, k: nat :: b < |body| && k < |body[b]| ==> Distinct(g, body, isVoid, walk.replace, u, b, k)
    ensures Irredundant(g, body, isVoid, walk.replace)
  {
    hide Sound, SameNumbers, Listed, ComesBefore, Twins, Folds, Distinct;
    forall b: Block, k: nat | KeptOperation(body, isVoid, walk.replace, b, k)
      ensures !Folds(body[b][k].op, AfterAll(walk.replace, body[b][k].operands))
      ensures NoTwinBefore(g, body, isVoid, walk.replace, b, k)
    {
      var v := body[b][k];
      KeptIsListed(g, body, isVoid, walk.replace, u, b, k);
      if Folds(v.op, AfterAll(walk.replace, v.operands)) {
        NotFolded(walk, u, v);
      }
      forall c: Block, j: nat | KeptOperation(body, isVoid, walk.replace, c, j) && ComesBefore(g, body, b, k, body[c][j])
        ensures !Twins(walk.replace, v, body[c][j])
      {
        KeptIsListed(g, body, isVoid, walk.replace, u, c, j);
        if Twins(walk.replace, v, body[c][j]) {
          TwinsShare(walk, u, rep, v, body[c][j]);
          NoneCongruent(g, body, isVoid, walk.replace, u, b, k, c, j);
        }
      }
    }
  }

  lemma KeptIsListed(g: Cfg, body: Body, isVoid: Val -> bool, replace: map<Val, Val>, u: Tables, b: Block, k: nat)
    requires KeptOperation(body, isVoid, replace, b, k) && Distinct(g, body, isVoid, replace, u, b, k) && Listed(u)
    ensures OperandsNumbered(u, body[b][k]) && !Folds(body[b][k].op, KnownAs(u, body[b][k].operands))
  {
    hide ComesBefore, Folds, ExprOf;
    assert ListedAt(u, body[b][k]);
  }

  /** Of two kept operations, one before the other, no expression is the same: the operations differ, or numbers of
      operands. */
  lemma NoneCongruent(g: Cfg, body: Body, isVoid: Val -> bool, replace: map<Val, Val>, u: Tables, b: Block, k: nat,
                      c: Block, j: nat)
    requires KeptOperation(body, isVoid, replace, b, k) && Distinct(g, body, isVoid, replace, u, b, k)
    requires KeptOperation(body, isVoid, replace, c, j) && Distinct(g, body, isVoid, replace, u, c, j)
    requires Listed(u) && ComesBefore(g, body, b, k, body[c][j])
    ensures ExprOf(u, body[b][k]) != ExprOf(u, body[c][j])
  {
    hide ComesBefore, Listed, ExprOf;
    if ExprOf(u, body[b][k]) == ExprOf(u, body[c][j]) {
      CongruentShare(u, body[b][k], body[c][j]);
    }
  }
}
