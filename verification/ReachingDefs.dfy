/** Reaching definitions read off the dominator tree, for a body in which phis have been placed. */
module ReachingDefs {
  import opened Graphs
  import opened DomTrees
  import opened MemoryIr

  /** One function with its dominator tree, the variables to promote, and the position of every instruction.
      `body` already has its phis. */
  datatype Func = Func(g: Cfg, t: Tree, post: Numbering, body: Body, prom: set<Slot>, pos: map<nat, (Block, nat)>) {

    ghost predicate HasTree() {
      && g.Valid() && IsTree(t, post) && |body| == g.Size()
      && (forall b: Block :: b in t <==> b < g.Size())
    }

    predicate At(b: Block, k: nat, i: Instr) {
      b < |body| && k < |body[b]| && body[b][k] == i
    }

    /** Position (b', k') comes before (b, k) on every walk that reaches the latter. */
    ghost predicate Before(b': Block, k': nat, b: Block, k: nat)
      requires HasTree()
    {
      b in t && b' in Anc(t, post, b) && (b' == b ==> k' < k)
    }

    ghost predicate Available(v: Value, b: Block, k: nat)
      requires HasTree()
    {
      match v
      case Result(id) => id in pos && Before(pos[id].0, pos[id].1, b, k)
      case PhiResult(b', a) => b in t && b' in Anc(t, post, b)
      case _ => true
    }

    /** `pos` gives the one place where each name is defined. */
    ghost predicate UniqueNames() {
      && (forall b: Block, k: nat, i :: At(b, k, i) && !i.Phi? ==> i.id in pos && pos[i.id] == (b, k))
      && (forall id :: id in pos ==> pos[id].0 < |body| && pos[id].1 < |body[pos[id].0]| &&
                                     !body[pos[id].0][pos[id].1].Phi? && body[pos[id].0][pos[id].1].id == id)
    }

    /** Every operand is defined before it is used, and no store writes a pointer to itself. */
    ghost predicate OperandsDefined()
      requires HasTree()
    {
      && (forall b: Block, k: nat, i, v :: At(b, k, i) && v in i.Args() ==> Available(v, b, k) && !v.PhiResult?)
      && (forall b: Block, k: nat, i :: At(b, k, i) && i.Store? ==> i.val != i.ptr)
    }

    /** Phis stand in their own block and belong to variables to promote; those are only accessed. */
    ghost predicate VariablesAccessed() {
      && (forall b: Block, k: nat, i :: At(b, k, i) && i.Phi? ==> i.block == b && i.slot in prom)
      && (forall a :: a in prom ==> a in pos && pos[a].0 < |body| && pos[a].1 < |body[pos[a].0]| &&
                                    body[pos[a].0][pos[a].1].Alloca?)
      && (forall b: Block, k: nat, i, a :: At(b, k, i) && a in prom && Result(a) in i.Args() ==> i.Accesses(a))
    }

    ghost predicate Strict()
      requires HasTree()
    {
      UniqueNames() && OperandsDefined() && VariablesAccessed()
    }

    predicate IsPromotedLoad(id: nat) {
      id in pos && pos[id].0 < |body| && pos[id].1 < |body[pos[id].0]| &&
      var i := body[pos[id].0][pos[id].1];
      i.Load? && i.AccessesOneOf(prom)
    }

    /** The definition of `a` that reaches position (b, k): a phi, the operand of a store, or none. */
    ghost function Reach(b: Block, k: nat, a: Slot): Value
      requires HasTree() && b in t && k <= |body[b]|
      decreases |post| - post[b], k
    {
      if k == 0 then AboveReach(b, a)
      else
        var i := body[b][k - 1];
        if i.Phi? && i.slot == a then PhiResult(i.block, a)
        else if i.Store? && i.Accesses(a) then i.val
        else Reach(b, k - 1, a)
    }

    /** The definition that reaches the end of the parent in the tree. */
    ghost function AboveReach(b: Block, a: Slot): Value
      requires HasTree() && b in t
      decreases |post| - post[b], 0, 0
    {
      if b == ENTRY then Undef else Reach(Parent(t, b), |body[Parent(t, b)]|, a)
    }

    ghost function ReachOut(b: Block, a: Slot): Value
      requires HasTree() && b in t
    {
      Reach(b, |body[b]|, a)
    }

    /** Block `b` stores to `a` or has a phi for it. */
    predicate Defines(b: Block, a: Slot) {
      b < |body| && exists i :: i in body[b] && ((i.Phi? && i.slot == a) || (i.Store? && i.Accesses(a)))
    }

    predicate HasPhi(b: Block, a: Slot) {
      b < |body| && Phi(b, a) in body[b]
    }

    /** Phis stand first in their blocks, once each, and at every join reached by a definition. */
    ghost predicate PhisPlaced() {
      && (forall b: Block, j, k :: b < |body| && 0 <= j < k < |body[b]| && body[b][k].Phi? ==>
            body[b][j].Phi? && body[b][j] != body[b][k])
      && (forall x: Block, b: Block, a :: a in prom && Defines(x, a) && b < |body| && g.Valid() && g.InFrontier(x, b) ==>
            HasPhi(b, a))
    }
  }

  // ----- availability -----

  lemma BeforeTrans(f: Func, b1: Block, k1: nat, b2: Block, k2: nat, b3: Block, k3: nat)
    requires f.HasTree() && f.Before(b1, k1, b2, k2) && f.Before(b2, k2, b3, k3)
    ensures f.Before(b1, k1, b3, k3)
  {
    AncAbove(f.t, f.post, b3, b2);
    AncAbove(f.t, f.post, b2, b1);
  }

  lemma AvailableLater(f: Func, v: Value, b: Block, k: nat, b': Block, k': nat)
    requires f.HasTree() && f.Available(v, b, k) && b in f.t
    requires f.Before(b, k, b', k') || (b == b' && k <= k')
    ensures f.Available(v, b', k')
  {
    if b != b' {
      AncAbove(f.t, f.post, b', b);
    }
    if v.Result? && f.Before(b, k, b', k') {
      BeforeTrans(f, f.pos[v.id].0, f.pos[v.id].1, b, k, b', k');
    }
  }

  lemma AvailableInChild(f: Func, v: Value, b: Block)
    requires f.HasTree() && b in f.t && b != ENTRY
    requires Parent(f.t, b) < |f.body| && f.Available(v, Parent(f.t, b), |f.body[Parent(f.t, b)]|)
    ensures f.Available(v, b, 0)
    ensures v != PhiResult(b, 0) && (v.PhiResult? ==> v.block != b)
  {
    var p := Parent(f.t, b);
    if b in Anc(f.t, f.post, p) {
      AncAbove(f.t, f.post, p, b);
    }
  }

  /** The definition that reaches a position is available there. */
  lemma {:induction false} ReachAvailable(f: Func, b: Block, k: nat, a: Slot)
    requires f.HasTree() && f.Strict() && b in f.t && k <= |f.body[b]|
    ensures f.Available(f.Reach(b, k, a), b, k)
    decreases |f.post| - f.post[b], k
  {
    if k == 0 {
      if b != ENTRY {
        var p := Parent(f.t, b);
        ReachAvailable(f, p, |f.body[p]|, a);
        AvailableInChild(f, f.Reach(p, |f.body[p]|, a), b);
      }
    } else {
      var i := f.body[b][k - 1];
      assert f.At(b, k - 1, i);
      if i.Phi? && i.slot == a {
      } else if i.Store? && i.Accesses(a) {
        assert i.val in i.Args();
        AvailableLater(f, i.val, b, k - 1, b, k);
      } else {
        ReachAvailable(f, b, k - 1, a);
        AvailableLater(f, f.Reach(b, k - 1, a), b, k - 1, b, k);
      }
    }
  }

  // ----- joins without a phi -----

  lemma {:induction false} NoDefinition(f: Func, b: Block, k: nat, a: Slot)
    requires f.HasTree() && b in f.t && k <= |f.body[b]| && !f.Defines(b, a)
    ensures f.Reach(b, k, a) == f.AboveReach(b, a)
    decreases k
  {
    if k > 0 {
      assert f.body[b][k - 1] in f.body[b];
      NoDefinition(f, b, k - 1, a);
    }
  }

  /** If `b` has no phi for `a`, no block from `x` up to its parent defines `a`, where `x` lies on the way from a
      predecessor of `b`: all predecessors agree with the parent. */
  lemma {:induction false} AgreeUpTo(f: Func, b: Block, p: Block, x: Block, a: Slot)
    requires f.HasTree() && f.PhisPlaced() && PostOrdered(f.g, f.post) && Fixpoint(f.g, f.t, f.post)
    requires KeepsDominators(f.g, f.t)
    requires b in f.t && b != ENTRY && a in f.prom && !f.HasPhi(b, a) && p in f.g.preds[b] && p in f.t
    requires x in Anc(f.t, f.post, p) && Parent(f.t, b) in Anc(f.t, f.post, x)
    ensures f.ReachOut(x, a) == f.ReachOut(Parent(f.t, b), a)
    decreases |f.post| - f.post[x]
  {
    var d := Parent(f.t, b);
    if x != d {
      AncAbove(f.t, f.post, x, d);
      AncAbove(f.t, f.post, p, x);
      AncestorsAreDominators(f.g, f.t, f.post, p, x);
      AncestorsAreDominators(f.g, f.t, f.post, b, x);
      if x in Anc(f.t, f.post, d) {
        AncAbove(f.t, f.post, d, x);
      }
      assert f.g.InFrontier(x, b);
      NoDefinition(f, x, |f.body[x]|, a);
      assert x != ENTRY;
      assert Parent(f.t, x) in Anc(f.t, f.post, x);
      AgreeUpTo(f, b, p, Parent(f.t, x), a);
    }
  }

  /** A block without a phi for `a` sees the same definition from every predecessor. */
  lemma PredsAgree(f: Func, b: Block, p: Block, a: Slot)
    requires f.HasTree() && f.PhisPlaced() && PostOrdered(f.g, f.post) && Fixpoint(f.g, f.t, f.post)
    requires KeepsDominators(f.g, f.t)
    requires b in f.t && b != ENTRY && a in f.prom && !f.HasPhi(b, a) && p in f.g.preds[b] && p in f.t
    ensures f.ReachOut(p, a) == f.AboveReach(b, a)
  {
    var n := Parent(f.t, b);
    assert AtMeet(f.g, f.t, f.post, b);
    assert n in Anc(f.t, f.post, n);
    assert Common(f.t, f.post, Processed(f.g, f.t, b), n);
    assert p in Anc(f.t, f.post, p);
    AgreeUpTo(f, b, p, p, a);
  }
}
