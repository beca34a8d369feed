/** Where phis go: the least set of blocks closed under the dominance frontiers of the storing blocks, and what
    inserting them in front of their blocks makes of a function. */
module PhiPlacement {
  import opened Graphs
  import opened DomTrees
  import opened MemoryIr
  import opened ReachingDefs
  import opened PromotionProof

  type Frontiers = map<Block, set<Block>>

  predicate StoresTo(code: seq<Instr>, a: Slot) {
    exists i :: i in code && i.Store? && i.Accesses(a)
  }

  /** `s` contains the frontier of every storing block and of each of its own blocks. */
  ghost predicate ClosedUnder(df: Frontiers, defs: set<Block>, s: set<Block>) {
    forall x :: x in df && (x in defs || x in s) ==> df[x] <= s
  }

  ghost predicate LeastClosed(df: Frontiers, defs: set<Block>, s: set<Block>) {
    ClosedUnder(df, defs, s) && forall t :: ClosedUnder(df, defs, t) ==> s <= t
  }

  function PhiBlocks(placed: set<PhiKey>, a: Slot): set<Block> {
    set k | k in placed && k.1 == a :: k.0
  }

  /** `body` is `plain` with the phis of `placed`, listed in `phis`, in front of their blocks. */
  ghost predicate Inserted(plain: Body, body: Body, phis: seq<seq<Instr>>, placed: set<PhiKey>) {
    && |plain| == |body| == |phis|
    && (forall b :: 0 <= b < |body| ==> body[b] == phis[b] + plain[b])
    && (forall b, j :: 0 <= b < |phis| && 0 <= j < |phis[b]| ==>
          phis[b][j].Phi? && phis[b][j].block == b && (b, phis[b][j].slot) in placed)
    && (forall k :: k in placed ==> k.0 < |phis| && Phi(k.0, k.1) in phis[k.0])
    && (forall b, i, j :: 0 <= b < |phis| && 0 <= i < j < |phis[b]| ==> phis[b][i] != phis[b][j])
  }

  lemma InsertOne(plain: Body, body: Body, phis: seq<seq<Instr>>, placed: set<PhiKey>, b: Block, a: Slot)
    requires Inserted(plain, body, phis, placed) && b < |body| && (b, a) !in placed
    ensures Inserted(plain, body[b := [Phi(b, a)] + body[b]], phis[b := [Phi(b, a)] + phis[b]], placed + {(b, a)})
  {
    var phis' := phis[b := [Phi(b, a)] + phis[b]];
    forall k | k in placed + {(b, a)}
      ensures k.0 < |phis'| && Phi(k.0, k.1) in phis'[k.0]
    {
      if k == (b, a) {
        assert phis'[b][0] == Phi(b, a);
      }
    }
    forall c, i, j | 0 <= c < |phis'| && 0 <= i < j < |phis'[c]|
      ensures phis'[c][i] != phis'[c][j]
    {
      if c == b {
        assert phis'[b][j] == phis[b][j - 1];
        if i > 0 {
          assert phis'[b][i] == phis[b][i - 1];
        }
      }
    }
  }

  // ----- the function with its phis -----

  function Shifted(pos: map<nat, (Block, nat)>, phis: seq<seq<Instr>>): map<nat, (Block, nat)> {
    map id | id in pos :: if pos[id].0 < |phis| then (pos[id].0, |phis[pos[id].0]| + pos[id].1) else pos[id]
  }

  /** The variables whose address is only loaded from and stored to. */
  ghost predicate OnlyAccessed(plain: Body, a: Slot) {
    forall b, k :: 0 <= b < |plain| && 0 <= k < |plain[b]| && Result(a) in plain[b][k].Args() ==> plain[b][k].Accesses(a)
  }

  ghost predicate IsAlloca(plain: Body, a: Slot) {
    exists b, k :: 0 <= b < |plain| && 0 <= k < |plain[b]| && plain[b][k] == Alloca(a)
  }

  /** The input of promotion: a strict function without phis, and variables that may be promoted. */
  ghost predicate Promotable(p: Func, prom: set<Slot>) {
    && p.prom == {} && p.HasTree() && p.Strict()
    && forall a :: a in prom ==> IsAlloca(p.body, a) && OnlyAccessed(p.body, a)
  }

  function WithPhis(p: Func, prom: set<Slot>, body: Body, phis: seq<seq<Instr>>): Func {
    Func(p.g, p.t, p.post, body, prom, Shifted(p.pos, phis))
  }

  /** Position by position: first the phis, then the plain code. */
  lemma PlainAt(p: Func, prom: set<Slot>, body: Body, phis: seq<seq<Instr>>, placed: set<PhiKey>, b: Block, k: nat)
    requires Promotable(p, prom) && Inserted(p.body, body, phis, placed) && b < |body| && k < |body[b]|
    ensures body[b][k].Phi? <==> k < |phis[b]|
    ensures k < |phis[b]| ==> body[b][k] == phis[b][k]
    ensures k >= |phis[b]| ==> k - |phis[b]| < |p.body[b]| && p.At(b, k - |phis[b]|, body[b][k])
  {
    if k >= |phis[b]| {
      assert p.At(b, k - |phis[b]|, body[b][k]);
    }
  }

  lemma ShiftedNames(p: Func, prom: set<Slot>, body: Body, phis: seq<seq<Instr>>, placed: set<PhiKey>)
    requires Promotable(p, prom) && Inserted(p.body, body, phis, placed)
    ensures WithPhis(p, prom, body, phis).UniqueNames()
  {
    var f := WithPhis(p, prom, body, phis);
    forall b: Block, k: nat, i | f.At(b, k, i) && !i.Phi?
      ensures i.id in f.pos && f.pos[i.id] == (b, k)
    {
      PlainAt(p, prom, body, phis, placed, b, k);
    }
    forall id | id in f.pos
      ensures f.pos[id].0 < |f.body| && f.pos[id].1 < |f.body[f.pos[id].0]|
      ensures !f.body[f.pos[id].0][f.pos[id].1].Phi? && f.body[f.pos[id].0][f.pos[id].1].id == id
    {
      var (b, k) := p.pos[id];
      assert body[b][|phis[b]| + k] == p.body[b][k];
    }
  }

  lemma ShiftedAvailable(p: Func, prom: set<Slot>, body: Body, phis: seq<seq<Instr>>, placed: set<PhiKey>,
                         v: Value, b: Block, k: nat)
    requires Promotable(p, prom) && Inserted(p.body, body, phis, placed) && b < |body| && |phis[b]| <= k
    requires p.Available(v, b, k - |phis[b]|)
    ensures WithPhis(p, prom, body, phis).Available(v, b, k)
  {
  }

  lemma ShiftedOperands(p: Func, prom: set<Slot>, body: Body, phis: seq<seq<Instr>>, placed: set<PhiKey>)
    requires Promotable(p, prom) && Inserted(p.body, body, phis, placed)
    ensures WithPhis(p, prom, body, phis).HasTree() && WithPhis(p, prom, body, phis).OperandsDefined()
    ensures forall b: Block, k: nat, i, a ::
              WithPhis(p, prom, body, phis).At(b, k, i) && a in prom && Result(a) in i.Args() ==> i.Accesses(a)
  {
    var f := WithPhis(p, prom, body, phis);
    assert f.HasTree();
    forall b: Block, k: nat, i, v | f.At(b, k, i) && v in i.Args()
      ensures f.Available(v, b, k) && !v.PhiResult?
      ensures v.Result? && v.id in prom ==> i.Accesses(v.id)
    {
      PlainAt(p, prom, body, phis, placed, b, k);
      ShiftedAvailable(p, prom, body, phis, placed, v, b, k);
    }
    forall b: Block, k: nat, i | f.At(b, k, i) && i.Store?
      ensures i.val != i.ptr
    {
      PlainAt(p, prom, body, phis, placed, b, k);
    }
  }

  lemma InsertedSlots(p: Func, prom: set<Slot>, body: Body, phis: seq<seq<Instr>>, placed: set<PhiKey>)
    requires Promotable(p, prom) && Inserted(p.body, body, phis, placed)
    requires forall k :: k in placed ==> k.1 in prom
    requires forall b: Block, k: nat, i, a ::
               WithPhis(p, prom, body, phis).At(b, k, i) && a in prom && Result(a) in i.Args() ==> i.Accesses(a)
    ensures WithPhis(p, prom, body, phis).VariablesAccessed()
  {
    var f := WithPhis(p, prom, body, phis);
    forall b: Block, k: nat, i | f.At(b, k, i) && i.Phi?
      ensures i.block == b && i.slot in prom
    {
      PlainAt(p, prom, body, phis, placed, b, k);
    }
    forall a | a in prom
      ensures a in f.pos && f.pos[a].0 < |body| && f.pos[a].1 < |body[f.pos[a].0]|
      ensures body[f.pos[a].0][f.pos[a].1].Alloca?
    {
      var b, k :| 0 <= b < |p.body| && 0 <= k < |p.body[b]| && p.body[b][k] == Alloca(a);
      assert p.At(b, k, Alloca(a));
      assert body[b][|phis[b]| + k] == Alloca(a);
    }
  }

  /** With the phis inserted the function is strict again. */
  lemma InsertedStrict(p: Func, prom: set<Slot>, body: Body, phis: seq<seq<Instr>>, placed: set<PhiKey>)
    requires Promotable(p, prom) && Inserted(p.body, body, phis, placed)
    requires forall k :: k in placed ==> k.1 in prom
    ensures WithPhis(p, prom, body, phis).HasTree() && WithPhis(p, prom, body, phis).Strict()
  {
    hide Inserted, Promotable, Func.UniqueNames, Func.OperandsDefined, Func.VariablesAccessed;
    ShiftedNames(p, prom, body, phis, placed);
    ShiftedOperands(p, prom, body, phis, placed);
    InsertedSlots(p, prom, body, phis, placed);
  }

  /** The blocks that store to `a`. */
  ghost function DefBlocks(plain: Body, a: Slot): set<Block> {
    set b: Block | b in AllBlocks(|plain|) && StoresTo(plain[b], a)
  }

  ghost function AllBlocks(n: nat): (r: set<Block>)
    ensures forall b: Block :: b in r <==> b < n
  {
    if n == 0 then {} else AllBlocks(n - 1) + {n - 1}
  }

  ghost predicate PlacedRight(plain: Body, df: Frontiers, prom: set<Slot>, placed: set<PhiKey>) {
    && (forall k :: k in placed ==> k.1 in prom)
    && (forall a :: a in prom ==> LeastClosed(df, DefBlocks(plain, a), PhiBlocks(placed, a)))
  }

  lemma HasPhiIffPlaced(p: Func, prom: set<Slot>, body: Body, phis: seq<seq<Instr>>, placed: set<PhiKey>, b: Block,
                        a: Slot)
    requires Promotable(p, prom) && Inserted(p.body, body, phis, placed)
    ensures WithPhis(p, prom, body, phis).HasPhi(b, a) <==> (b, a) in placed
  {
    if b < |body| && Phi(b, a) in body[b] {
      var k :| 0 <= k < |body[b]| && body[b][k] == Phi(b, a);
      PlainAt(p, prom, body, phis, placed, b, k);
    }
  }

  lemma DefinesIff(p: Func, prom: set<Slot>, body: Body, phis: seq<seq<Instr>>, placed: set<PhiKey>, x: Block, a: Slot)
    requires Promotable(p, prom) && Inserted(p.body, body, phis, placed)
    requires WithPhis(p, prom, body, phis).Defines(x, a)
    ensures x in PhiBlocks(placed, a) || x in DefBlocks(p.body, a)
  {
    var i :| i in body[x] && ((i.Phi? && i.slot == a) || (i.Store? && i.Accesses(a)));
    var k :| 0 <= k < |body[x]| && body[x][k] == i;
    PlainAt(p, prom, body, phis, placed, x, k);
    if i.Phi? {
      assert (x, a) in placed;
    } else {
      assert i in p.body[x];
    }
  }

  /** Phis placed at the least closed sets satisfy what the correctness proof of promotion asks for. */
  lemma PlacementSound(p: Func, df: Frontiers, prom: set<Slot>, body: Body, phis: seq<seq<Instr>>, placed: set<PhiKey>)
    requires Promotable(p, prom) && Inserted(p.body, body, phis, placed) && PlacedRight(p.body, df, prom, placed)
    requires PostOrdered(p.g, p.post) && Fixpoint(p.g, p.t, p.post) && KeepsDominators(p.g, p.t)
    requires p.g.preds[ENTRY] == []
    requires df.Keys == p.t.Keys && forall x, b :: x in df ==> (b in df[x] <==> p.g.InFrontier(x, b))
    ensures Sound(WithPhis(p, prom, body, phis))
    ensures IsPlain(WithPhis(p, prom, body, phis), p.body)
  {
    hide Func.Strict, PostOrdered, Fixpoint, KeepsDominators, LeastClosed;
    InsertedStrict(p, prom, body, phis, placed);
    PlacedFirst(p, prom, body, phis, placed);
    PlacedAtJoins(p, df, prom, body, phis, placed);
    PlacedInside(p, df, prom, body, phis, placed);
    PlainParts(p, prom, body, phis, placed);
  }

  lemma PlacedFirst(p: Func, prom: set<Slot>, body: Body, phis: seq<seq<Instr>>, placed: set<PhiKey>)
    requires Promotable(p, prom) && Inserted(p.body, body, phis, placed)
    ensures forall b: Block, j, k :: b < |body| && 0 <= j < k < |body[b]| && body[b][k].Phi? ==>
              body[b][j].Phi? && body[b][j] != body[b][k]
  {
    forall b: Block, j, k | b < |body| && 0 <= j < k < |body[b]| && body[b][k].Phi?
      ensures body[b][j].Phi? && body[b][j] != body[b][k]
    {
      PlainAt(p, prom, body, phis, placed, b, k);
      PlainAt(p, prom, body, phis, placed, b, j);
    }
  }

  lemma PlacedAtJoins(p: Func, df: Frontiers, prom: set<Slot>, body: Body, phis: seq<seq<Instr>>, placed: set<PhiKey>)
    requires Promotable(p, prom) && Inserted(p.body, body, phis, placed) && PlacedRight(p.body, df, prom, placed)
    requires df.Keys == p.t.Keys && forall x, b :: x in df ==> (b in df[x] <==> p.g.InFrontier(x, b))
    ensures var f := WithPhis(p, prom, body, phis);
            forall x: Block, b: Block, a :: a in prom && f.Defines(x, a) && b < |body| && f.g.InFrontier(x, b) ==>
              f.HasPhi(b, a)
  {
    var f := WithPhis(p, prom, body, phis);
    forall x: Block, b: Block, a | a in prom && f.Defines(x, a) && b < |body| && f.g.InFrontier(x, b)
      ensures f.HasPhi(b, a)
    {
      DefinesIff(p, prom, body, phis, placed, x, a);
      HasPhiIffPlaced(p, prom, body, phis, placed, b, a);
      assert x in df && b in df[x];
      assert ClosedUnder(df, DefBlocks(p.body, a), PhiBlocks(placed, a));
      assert b in PhiBlocks(placed, a);
    }
  }

  lemma PlacedInside(p: Func, df: Frontiers, prom: set<Slot>, body: Body, phis: seq<seq<Instr>>, placed: set<PhiKey>)
    requires Promotable(p, prom) && Inserted(p.body, body, phis, placed) && PlacedRight(p.body, df, prom, placed)
    requires p.g.preds[ENTRY] == []
    requires forall x, b :: x in df ==> (b in df[x] <==> p.g.InFrontier(x, b))
    ensures forall b: Block, a :: WithPhis(p, prom, body, phis).HasPhi(b, a) ==> b != ENTRY && a in prom
  {
    forall b: Block, a | WithPhis(p, prom, body, phis).HasPhi(b, a)
      ensures b != ENTRY && a in prom
    {
      HasPhiIffPlaced(p, prom, body, phis, placed, b, a);
      var inner := AllBlocks(|body|) - {ENTRY};
      assert ClosedUnder(df, DefBlocks(p.body, a), inner);
      assert b in PhiBlocks(placed, a);
    }
  }

  lemma PlainParts(p: Func, prom: set<Slot>, body: Body, phis: seq<seq<Instr>>, placed: set<PhiKey>)
    requires Promotable(p, prom) && Inserted(p.body, body, phis, placed) && WithPhis(p, prom, body, phis).HasTree()
    ensures IsPlain(WithPhis(p, prom, body, phis), p.body)
  {
    forall b | 0 <= b < |body|
      ensures body[b][PhiCount(body[b])..] == p.body[b]
    {
      var n := PhiCount(body[b]);
      if n < |body[b]| {
        PlainAt(p, prom, body, phis, placed, b, n);
      }
      if |phis[b]| < |body[b]| {
        PlainAt(p, prom, body, phis, placed, b, |phis[b]|);
      }
    }
  }

  // ----- the input -----

  /** The input as the front end gives it: no phis, unique names, definitions that dominate their uses, and (by typing)
      no store of a pointer into itself. */
  ghost predicate DefinedBeforeUse(g: Cfg, body: Body, pos: map<nat, (Block, nat)>) {
    && (forall b, k :: 0 <= b < |body| && 0 <= k < |body[b]| ==>
          !body[b][k].Phi? && body[b][k].id in pos && pos[body[b][k].id] == (b, k))
    && (forall id :: id in pos ==> pos[id].0 < |body| && pos[id].1 < |body[pos[id].0]| &&
                                   !body[pos[id].0][pos[id].1].Phi? && body[pos[id].0][pos[id].1].id == id)
    && (forall b: Block, k, v :: 0 <= b < |body| && 0 <= k < |body[b]| && v in body[b][k].Args() ==>
          !v.PhiResult? &&
          (v.Result? ==> v.id in pos && g.Dominates(pos[v.id].0, b) && (pos[v.id].0 == b ==> pos[v.id].1 < k)))
    && (forall b, k :: 0 <= b < |body| && 0 <= k < |body[b]| && body[b][k].Store? ==> body[b][k].val != body[b][k].ptr)
  }

  lemma InputStrict(p: Func)
    requires p.prom == {} && p.HasTree() && DefinedBeforeUse(p.g, p.body, p.pos)
    requires PostOrdered(p.g, p.post) && Fixpoint(p.g, p.t, p.post) && KeepsDominators(p.g, p.t)
    ensures p.Strict()
  {
    hide PostOrdered, Fixpoint, KeepsDominators, IsTree;
    assert p.UniqueNames();
    assert p.VariablesAccessed();
    forall b: Block, k: nat, i, v | p.At(b, k, i) && v in i.Args()
      ensures p.Available(v, b, k) && !v.PhiResult?
    {
      if v.Result? {
        AncestorsAreDominators(p.g, p.t, p.post, b, p.pos[v.id].0);
      }
    }
  }
}
