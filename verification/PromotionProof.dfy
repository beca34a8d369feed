/** Why a body whose promoted loads have been replaced by their reaching definitions has the same trace. */
module PromotionProof {
  import opened Graphs
  import opened DomTrees
  import opened MemoryIr
  import opened ReachingDefs

  /** What each promoted load has been replaced by. */
  type Renaming = map<nat, Value>

  function Res(s: Renaming, v: Value): Value {
    if v.Result? && v.id in s then s[v.id] else v
  }

  function Rewrite(s: Renaming, i: Instr): Instr {
    match i
    case Phi(_, _) => i
    case Alloca(_) => i
    case Load(id, ptr) => Load(id, Res(s, ptr))
    case Store(id, val, ptr) => Store(id, Res(s, val), Res(s, ptr))
    case Op(id, args) => Op(id, seq(|args|, j requires 0 <= j < |args| => Res(s, args[j])))
  }

  /** The instructions that survive, rewritten. */
  function Renamed(s: Renaming, prom: set<Slot>, code: seq<Instr>): seq<Instr> {
    if code == [] then []
    else
      var i := code[|code| - 1];
      Renamed(s, prom, code[..|code| - 1]) + if i.Promoted(prom) then [] else [Rewrite(s, i)]
  }

  ghost function LoadReach(f: Func, id: nat): Value
    requires f.HasTree() && f.IsPromotedLoad(id)
  {
    var (b, k) := f.pos[id];
    f.Reach(b, k, f.body[b][k].ptr.id)
  }

  /** `s` replaces exactly the promoted loads, each by its reaching definition, fully resolved. */
  ghost predicate Resolves(f: Func, s: Renaming)
    requires f.HasTree()
  {
    && (forall id :: id in s <==> f.IsPromotedLoad(id))
    && (forall id :: id in s ==> s[id] == Res(s, LoadReach(f, id)))
    && (forall id :: id in s ==> s[id].Result? ==> s[id].id !in s)
  }

  ghost predicate Equations(f: Func, s: Renaming)
    requires f.HasTree()
  {
    forall id :: id in s ==> f.IsPromotedLoad(id) && s[id] == Res(s, LoadReach(f, id))
  }

  /** Phi operands carry the definition that reaches the end of the predecessor. */
  ghost predicate PhisFilled(f: Func, s: Renaming, incoming: map<PhiKey, seq<(Value, Block)>>)
    requires f.HasTree()
  {
    forall p: Block, b: Block, a :: p in f.t && f.g.Edge(p, b) && f.HasPhi(b, a) ==>
      IncomingFor(incoming, (b, a), p) == Res(s, f.ReachOut(p, a))
  }

  /** `prog` is the promoted form of `f`. */
  ghost predicate IsPromotion(f: Func, s: Renaming, prog: Prog)
    requires f.HasTree()
  {
    && Resolves(f, s)
    && |prog.body| == |f.body|
    && (forall b :: 0 <= b < |f.body| ==> prog.body[b] == Renamed(s, f.prom, f.body[b]))
    && PhisFilled(f, s, prog.incoming)
  }

  ghost predicate Sound(f: Func) {
    && f.HasTree() && f.Strict() && f.PhisPlaced()
    && PostOrdered(f.g, f.post) && Fixpoint(f.g, f.t, f.post) && KeepsDominators(f.g, f.t)
    && f.g.preds[ENTRY] == []
    && (forall b: Block, a :: f.HasPhi(b, a) ==> b != ENTRY && a in f.prom)
  }

  // ----- resolved values stay available -----

  lemma {:induction false} ResAvailable(f: Func, s: Renaming, v: Value, b: Block, k: nat)
    requires f.HasTree() && f.Strict() && Resolves(f, s) && b in f.t && f.Available(v, b, k)
    ensures f.Available(Res(s, v), b, k)
    decreases |f.post| - f.post[b], k
  {
    if v.Result? && v.id in s {
      var (b', k') := f.pos[v.id];
      AncAbove(f.t, f.post, b, b');
      var r := LoadReach(f, v.id);
      ReachAvailable(f, b', k', f.body[b'][k'].ptr.id);
      ResAvailable(f, s, r, b', k');
      AvailableLater(f, Res(s, r), b', k', b, k);
    }
  }

  lemma LoadAvailable(f: Func, s: Renaming, id: nat, b: Block, k: nat)
    requires f.HasTree() && f.Strict() && Resolves(f, s) && b in f.t && id in s
    requires f.Before(f.pos[id].0, f.pos[id].1, b, k)
    ensures f.Available(s[id], b, k)
    ensures f.pos[id].0 in f.t && f.Available(s[id], f.pos[id].0, f.pos[id].1)
  {
    var (b', k') := f.pos[id];
    ReachAvailable(f, b', k', f.body[b'][k'].ptr.id);
    ResAvailable(f, s, LoadReach(f, id), b', k');
    AvailableLater(f, s[id], b', k', b, k);
  }

  // ----- the simulation -----

  ghost predicate SameEnv(f: Func, w: World, so: State, sn: State) {
    forall id: nat {:trigger Lookup(sn.env, id, w.undef)} {:trigger Lookup(so.env, id, w.undef)} ::
      !f.IsPromotedLoad(id) ==> Lookup(so.env, id, w.undef) == Lookup(sn.env, id, w.undef)
  }

  ghost predicate LoadsResolved(f: Func, w: World, s: Renaming, b: Block, k: nat, so: State, sn: State)
    requires f.HasTree()
  {
    forall id {:trigger s[id]} :: id in s && id in f.pos && f.Before(f.pos[id].0, f.pos[id].1, b, k) ==>
      Lookup(so.env, id, w.undef) == Eval(w, sn, s[id])
  }

  ghost predicate CellsResolved(f: Func, w: World, s: Renaming, b: Block, k: nat, so: State, sn: State)
    requires f.HasTree() && b in f.t && k <= |f.body[b]|
  {
    forall a {:trigger f.Reach(b, k, a)} :: a in f.prom ==>
      Lookup(so.mem, a, w.undef) == Eval(w, sn, Res(s, f.Reach(b, k, a)))
  }

  /** The original state `so` and the state `sn` of the promoted program at position (b, k): same trace, every value
      computed so far agrees, and each cell holds what its reaching definition evaluates to. */
  ghost predicate Sim(f: Func, w: World, s: Renaming, b: Block, k: nat, so: State, sn: State)
    requires f.HasTree() && b in f.t && k <= |f.body[b]|
  {
    && so.trace == sn.trace
    && SameEnv(f, w, so, sn)
    && LoadsResolved(f, w, s, b, k, so, sn)
    && CellsResolved(f, w, s, b, k, so, sn)
  }

  lemma SimValue(f: Func, w: World, s: Renaming, b: Block, k: nat, so: State, sn: State, v: Value)
    requires f.HasTree() && b in f.t && k <= |f.body[b]| && Resolves(f, s) && Sim(f, w, s, b, k, so, sn)
    requires f.Available(v, b, k) && !v.PhiResult?
    ensures Eval(w, so, v) == Eval(w, sn, Res(s, v))
  {
    if v.Result? && v.id !in s {
      assert Lookup(so.env, v.id, w.undef) == Lookup(sn.env, v.id, w.undef);
    }
  }

  /** A value available at (b, k) does not change when the instruction at (b, k) defines its own name. */
  lemma StableUnderStep(f: Func, w: World, b: Block, k: nat, sn: State, sn': State, id: nat, x: int, v: Value)
    requires f.HasTree() && b in f.t && f.Available(v, b, k)
    requires id in f.pos && f.pos[id] == (b, k)
    requires sn'.phis == sn.phis && sn'.env == sn.env[id := x]
    ensures Eval(w, sn', v) == Eval(w, sn, v)
  {
  }

  lemma ArgsAgree(f: Func, w: World, s: Renaming, b: Block, k: nat, so: State, sn: State)
    requires f.HasTree() && f.Strict() && b in f.t && k < |f.body[b]| && Resolves(f, s) && Sim(f, w, s, b, k, so, sn)
    ensures EvalAll(w, so, f.body[b][k].Args()) == EvalAll(w, sn, Rewrite(s, f.body[b][k]).Args())
  {
    hide Sim, Resolves, Eval;
    var i := f.body[b][k];
    assert f.At(b, k, i);
    var args, args' := i.Args(), Rewrite(s, i).Args();
    assert |args| == |args'|;
    forall j | 0 <= j < |args|
      ensures Eval(w, so, args[j]) == Eval(w, sn, args'[j])
    {
      assert args[j] in i.Args();
      SimValue(f, w, s, b, k, so, sn, args[j]);
      assert args'[j] == Res(s, args[j]);
    }
  }

  lemma LoadsBefore(f: Func, s: Renaming, b: Block, k: nat, id: nat)
    requires f.HasTree() && f.Strict() && b in f.t && k < |f.body[b]| && Resolves(f, s)
    requires id in s && f.Before(f.pos[id].0, f.pos[id].1, b, k + 1)
    ensures f.Before(f.pos[id].0, f.pos[id].1, b, k) || (f.pos[id] == (b, k) && f.body[b][k].id == id)
  {
  }

  ghost predicate StepSim(f: Func, w: World, s: Renaming, b: Block, k: nat, so: State, sn: State)
    requires f.HasTree() && b in f.t && k < |f.body[b]|
  {
    var i := f.body[b][k];
    Sim(f, w, s, b, k + 1, Exec(w, f.prom, i, so),
        if i.Promoted(f.prom) then sn else Exec(w, f.prom, Rewrite(s, i), sn))
  }

  lemma StepAlloca(f: Func, w: World, s: Renaming, b: Block, k: nat, so: State, sn: State)
    requires f.HasTree() && f.Strict() && b in f.t && k < |f.body[b]| && Resolves(f, s) && Sim(f, w, s, b, k, so, sn)
    requires f.body[b][k].Alloca? && f.body[b][k].Promoted(f.prom)
    ensures StepSim(f, w, s, b, k, so, sn)
  {
    forall id | id in s && f.Before(f.pos[id].0, f.pos[id].1, b, k + 1)
      ensures Lookup(so.env, id, w.undef) == Eval(w, sn, s[id])
    {
      LoadsBefore(f, s, b, k, id);
    }
    forall a | a in f.prom
      ensures f.Reach(b, k + 1, a) == f.Reach(b, k, a)
    {
    }
  }

  lemma StepLoad(f: Func, w: World, s: Renaming, b: Block, k: nat, so: State, sn: State)
    requires f.HasTree() && f.Strict() && b in f.t && k < |f.body[b]| && Resolves(f, s) && Sim(f, w, s, b, k, so, sn)
    requires f.body[b][k].Load? && f.body[b][k].Promoted(f.prom)
    ensures StepSim(f, w, s, b, k, so, sn)
  {
    hide Func.OperandsDefined, Func.VariablesAccessed;
    var i := f.body[b][k];
    assert f.At(b, k, i);
    var so' := Exec(w, f.prom, i, so);
    assert f.IsPromotedLoad(i.id) && s[i.id] == Res(s, f.Reach(b, k, i.ptr.id));
    forall id | id in s && f.Before(f.pos[id].0, f.pos[id].1, b, k + 1)
      ensures Lookup(so'.env, id, w.undef) == Eval(w, sn, s[id])
    {
      LoadsBefore(f, s, b, k, id);
    }
    forall a | a in f.prom
      ensures f.Reach(b, k + 1, a) == f.Reach(b, k, a)
    {
    }
    assert SameEnv(f, w, so', sn) by {
      forall id: nat | !f.IsPromotedLoad(id)
        ensures Lookup(so'.env, id, w.undef) == Lookup(sn.env, id, w.undef)
      {
        assert Lookup(so.env, id, w.undef) == Lookup(sn.env, id, w.undef);
      }
    }
  }

  lemma StepStore(f: Func, w: World, s: Renaming, b: Block, k: nat, so: State, sn: State)
    requires f.HasTree() && f.Strict() && b in f.t && k < |f.body[b]| && Resolves(f, s) && Sim(f, w, s, b, k, so, sn)
    requires f.body[b][k].Store? && f.body[b][k].Promoted(f.prom)
    ensures StepSim(f, w, s, b, k, so, sn)
  {
    var i := f.body[b][k];
    assert f.At(b, k, i);
    var so' := Exec(w, f.prom, i, so);
    assert i.val in i.Args();
    SimValue(f, w, s, b, k, so, sn, i.val);
    forall id | id in s && f.Before(f.pos[id].0, f.pos[id].1, b, k + 1)
      ensures Lookup(so'.env, id, w.undef) == Eval(w, sn, s[id])
    {
      LoadsBefore(f, s, b, k, id);
    }
    forall a | a in f.prom
      ensures Lookup(so'.mem, a, w.undef) == Eval(w, sn, Res(s, f.Reach(b, k + 1, a)))
    {
      if a != i.ptr.id {
        assert Lookup(so.mem, a, w.undef) == Eval(w, sn, Res(s, f.Reach(b, k, a)));
      }
    }
  }

  lemma StepOther(f: Func, w: World, s: Renaming, b: Block, k: nat, so: State, sn: State)
    requires f.HasTree() && f.Strict() && b in f.t && k < |f.body[b]| && Resolves(f, s) && Sim(f, w, s, b, k, so, sn)
    requires !f.body[b][k].Phi? && !f.body[b][k].Promoted(f.prom)
    ensures StepSim(f, w, s, b, k, so, sn)
  {
    var i := f.body[b][k];
    assert f.At(b, k, i);
    ArgsAgree(f, w, s, b, k, so, sn);
    var vals := EvalAll(w, so, i.Args());
    var x := w.oracle(so.trace + [Event(i.id, vals)]);
    var so', sn' := Happen(w, so, i.id, vals), Happen(w, sn, i.id, vals);
    RewriteStaysOther(f, s, b, k);
    assert so'.env == so.env[i.id := x] && sn'.env == sn.env[i.id := x];
    forall id | id in s && f.Before(f.pos[id].0, f.pos[id].1, b, k + 1)
      ensures Lookup(so'.env, id, w.undef) == Eval(w, sn', s[id])
    {
      LoadsBefore(f, s, b, k, id);
      LoadAvailable(f, s, id, b, k);
      StableUnderStep(f, w, b, k, sn, sn', i.id, x, s[id]);
    }
    forall a | a in f.prom
      ensures Lookup(so'.mem, a, w.undef) == Eval(w, sn', Res(s, f.Reach(b, k + 1, a)))
    {
      var r := f.Reach(b, k, a);
      assert f.Reach(b, k + 1, a) == r;
      ReachAvailable(f, b, k, a);
      ResAvailable(f, s, r, b, k);
      StableUnderStep(f, w, b, k, sn, sn', i.id, x, Res(s, r));
    }
    HappenKeepsEnv(f, w, so, sn, i.id, x, so', sn');
  }

  lemma HappenKeepsEnv(f: Func, w: World, so: State, sn: State, id: nat, x: int, so': State, sn': State)
    requires SameEnv(f, w, so, sn)
    requires so'.env == so.env[id := x] && sn'.env == sn.env[id := x]
    ensures SameEnv(f, w, so', sn')
  {
    forall j: nat | !f.IsPromotedLoad(j)
      ensures Lookup(so'.env, j, w.undef) == Lookup(sn'.env, j, w.undef)
    {
      assert Lookup(so.env, j, w.undef) == Lookup(sn.env, j, w.undef);
    }
  }

  /** Rewriting does not turn an ordinary instruction into an access to a promoted variable. */
  lemma RewriteStaysOther(f: Func, s: Renaming, b: Block, k: nat)
    requires f.HasTree() && f.Strict() && b in f.t && k < |f.body[b]| && Resolves(f, s)
    requires !f.body[b][k].Phi? && !f.body[b][k].Promoted(f.prom)
    ensures !Rewrite(s, f.body[b][k]).Phi? && !Rewrite(s, f.body[b][k]).Promoted(f.prom)
    ensures Rewrite(s, f.body[b][k]).id == f.body[b][k].id
  {
    var i := f.body[b][k];
    if (i.Load? || i.Store?) && i.ptr.Result? && i.ptr.id in s {
      ResNotVariable(f, s, i.ptr);
    }
  }

  /** No operand resolves to the address of a promoted variable. */
  lemma ResNotVariable(f: Func, s: Renaming, v: Value)
    requires f.HasTree() && f.Strict() && Equations(f, s) && v.Result? && v.id in s
    ensures s[v.id].Result? ==> s[v.id].id !in f.prom
  {
    var (b', k') := f.pos[v.id];
    ReachNotVariable(f, s, b', k', f.body[b'][k'].ptr.id);
  }

  lemma StoredValue(f: Func, b: Block, k: nat)
    requires f.HasTree() && f.Strict() && b in f.t && k < |f.body[b]| && f.body[b][k].Store?
    ensures f.Available(f.body[b][k].val, b, k)
    ensures f.body[b][k].val.Result? ==> f.body[b][k].val.id !in f.prom
  {
    var i := f.body[b][k];
    assert f.At(b, k, i);
    assert i.val in i.Args();
    assert i.val.Result? && i.val.id in f.prom ==> i.Accesses(i.val.id);
  }

  lemma EarlierLoad(f: Func, s: Renaming, id: nat, b: Block, k: nat)
    requires f.HasTree() && Equations(f, s) && b in f.t && id in s && f.Available(Result(id), b, k)
    ensures var (b', k') := f.pos[id];
            && b' in f.t && k' < |f.body[b']| && ((b' == b && k' < k) || f.post[b] < f.post[b'])
            && f.body[b'][k'].Load? && f.body[b'][k'].AccessesOneOf(f.prom)
            && s[id] == Res(s, f.Reach(b', k', f.body[b'][k'].ptr.id))
  {
    AncAbove(f.t, f.post, b, f.pos[id].0);
  }

  lemma {:induction false} ReachNotVariable(f: Func, s: Renaming, b: Block, k: nat, a: Slot)
    requires f.HasTree() && f.Strict() && Equations(f, s) && b in f.t && k <= |f.body[b]| && a in f.prom
    ensures Res(s, f.Reach(b, k, a)).Result? ==> Res(s, f.Reach(b, k, a)).id !in f.prom
    decreases |f.post| - f.post[b], k
  {
    hide Equations, Func.Strict;
    if k == 0 {
      if b != ENTRY {
        ReachNotVariable(f, s, Parent(f.t, b), |f.body[Parent(f.t, b)]|, a);
      }
    } else {
      var i := f.body[b][k - 1];
      if i.Phi? && i.slot == a {
      } else if i.Store? && i.Accesses(a) {
        StoredValue(f, b, k - 1);
        if i.val.Result? && i.val.id in s {
          EarlierLoad(f, s, i.val.id, b, k - 1);
          var (b', k') := f.pos[i.val.id];
          ReachNotVariable(f, s, b', k', f.body[b'][k'].ptr.id);
        }
      } else {
        ReachNotVariable(f, s, b, k - 1, a);
      }
    }
  }

  // ----- whole blocks -----

  /** The number of phis a block starts with. */
  function PhiCount(code: seq<Instr>): (n: nat)
    ensures n <= |code| && (forall j :: 0 <= j < n ==> code[j].Phi?) && (n < |code| ==> !code[n].Phi?)
  {
    if code != [] && code[0].Phi? then 1 + PhiCount(code[1..]) else 0
  }

  lemma {:induction false} ReachAfterPhis(f: Func, b: Block, n: nat, a: Slot)
    requires f.HasTree() && f.Strict() && b in f.t && n <= PhiCount(f.body[b])
    ensures f.Reach(b, n, a) == if Phi(b, a) in f.body[b][..n] then PhiResult(b, a) else f.AboveReach(b, a)
    decreases n
  {
    if n > 0 {
      var i := f.body[b][n - 1];
      assert f.At(b, n - 1, i);
      ReachAfterPhis(f, b, n - 1, a);
      assert f.body[b][..n] == f.body[b][..n - 1] + [i];
    }
  }

  lemma PhisAreAllInFront(f: Func, b: Block, a: Slot)
    requires f.HasTree() && f.PhisPlaced() && b in f.t
    ensures f.HasPhi(b, a) <==> Phi(b, a) in f.body[b][..PhiCount(f.body[b])]
    ensures forall k :: PhiCount(f.body[b]) <= k < |f.body[b]| ==> !f.body[b][k].Phi?
  {
    var n := PhiCount(f.body[b]);
    if f.HasPhi(b, a) {
      var k :| 0 <= k < |f.body[b]| && f.body[b][k] == Phi(b, a);
      assert k < n;
      assert f.body[b][..n][k] == Phi(b, a);
    }
  }

  lemma {:induction false} PhisDoNothing(w: World, prom: set<Slot>, s: Renaming, code: seq<Instr>, st: State)
    requires forall j :: 0 <= j < |code| ==> code[j].Phi?
    ensures ExecAll(w, prom, code, st) == st
    ensures Renamed(s, prom, code) == code
    decreases |code|
  {
    if code != [] {
      PhisDoNothing(w, prom, s, code[..|code| - 1], st);
    }
  }

  lemma RenamedSnoc(s: Renaming, prom: set<Slot>, code: seq<Instr>, k: nat)
    requires k < |code|
    ensures Renamed(s, prom, code[..k + 1]) ==
            Renamed(s, prom, code[..k]) + if code[k].Promoted(prom) then [] else [Rewrite(s, code[k])]
  {
    assert code[..k + 1][..k] == code[..k];
  }

  lemma Step(f: Func, w: World, s: Renaming, b: Block, k: nat, so: State, sn: State)
    requires f.HasTree() && f.Strict() && b in f.t && k < |f.body[b]| && Resolves(f, s) && Sim(f, w, s, b, k, so, sn)
    requires !f.body[b][k].Phi?
    ensures StepSim(f, w, s, b, k, so, sn)
  {
    hide Func.Strict, Resolves, Sim, StepSim;
    var i := f.body[b][k];
    if !i.Promoted(f.prom) {
      StepOther(f, w, s, b, k, so, sn);
    } else if i.Alloca? {
      StepAlloca(f, w, s, b, k, so, sn);
    } else if i.Load? {
      StepLoad(f, w, s, b, k, so, sn);
    } else {
      StepStore(f, w, s, b, k, so, sn);
    }
  }

  lemma PrefixStep(w: World, prom: set<Slot>, s: Renaming, code: seq<Instr>, k: nat, so: State, sn: State)
    requires k < |code|
    ensures ExecAll(w, prom, code[..k + 1], so) == Exec(w, prom, code[k], ExecAll(w, prom, code[..k], so))
    ensures ExecAll(w, prom, Renamed(s, prom, code[..k + 1]), sn) ==
            var sn' := ExecAll(w, prom, Renamed(s, prom, code[..k]), sn);
            if code[k].Promoted(prom) then sn' else Exec(w, prom, Rewrite(s, code[k]), sn')
  {
    hide Exec, Rewrite;
    RenamedSnoc(s, prom, code, k);
    assert code[..k + 1] == code[..k] + [code[k]];
    ExecAllSnoc(w, prom, code[..k], code[k], so);
    if code[k].Promoted(prom) {
      assert Renamed(s, prom, code[..k + 1]) == Renamed(s, prom, code[..k]);
    } else {
      ExecAllSnoc(w, prom, Renamed(s, prom, code[..k]), Rewrite(s, code[k]), sn);
    }
  }

  /** Running a block, up to any position after its phis, keeps the simulation. */
  lemma {:induction false} BlockSim(f: Func, w: World, s: Renaming, b: Block, k: nat, so: State, sn: State)
    requires f.HasTree() && f.Strict() && f.PhisPlaced() && b in f.t && Resolves(f, s)
    requires PhiCount(f.body[b]) <= k <= |f.body[b]|
    requires Sim(f, w, s, b, PhiCount(f.body[b]), so, sn)
    ensures Sim(f, w, s, b, k, ExecAll(w, f.prom, f.body[b][..k], so),
                ExecAll(w, f.prom, Renamed(s, f.prom, f.body[b][..k]), sn))
    decreases k
  {
    hide Func.Strict, Resolves, Sim, Func.PhisPlaced, ExecAll, Renamed, Exec, Rewrite;
    var code := f.body[b];
    if k == PhiCount(code) {
      PhisDoNothing(w, f.prom, s, code[..k], so);
      PhisDoNothing(w, f.prom, s, code[..k], sn);
    } else {
      var so', sn' := ExecAll(w, f.prom, code[..k - 1], so), ExecAll(w, f.prom, Renamed(s, f.prom, code[..k - 1]), sn);
      BlockSim(f, w, s, b, k - 1, so, sn);
      PhisAreAllInFront(f, b, 0);
      Step(f, w, s, b, k - 1, so', sn');
      PrefixStep(w, f.prom, s, code, k - 1, so, sn);
    }
  }

  // ----- edges -----

  lemma {:induction false} RenamedPhis(s: Renaming, prom: set<Slot>, code: seq<Instr>, i: Instr)
    requires i.Phi?
    ensures i in Renamed(s, prom, code) <==> i in code
    decreases |code|
  {
    if code != [] {
      RenamedPhis(s, prom, code[..|code| - 1], i);
      assert code == code[..|code| - 1] + [code[|code| - 1]];
    }
  }

  lemma PhiKeysOf(f: Func, s: Renaming, prog: Prog, b: Block)
    requires f.HasTree() && f.Strict() && IsPromotion(f, s, prog) && b in f.t
    ensures forall k :: k in PhiKeys(prog.body[b]) <==> k.0 == b && f.HasPhi(b, k.1)
  {
    forall k: PhiKey
      ensures k in PhiKeys(prog.body[b]) <==> k.0 == b && f.HasPhi(b, k.1)
    {
      RenamedPhis(s, f.prom, f.body[b], Phi(k.0, k.1));
      if Phi(k.0, k.1) in f.body[b] {
        var j :| 0 <= j < |f.body[b]| && f.body[b][j] == Phi(k.0, k.1);
        assert f.At(b, j, Phi(k.0, k.1));
      }
    }
  }

  /** Crossing into `b` changes only the phis of `b`. */
  lemma CrossEval(f: Func, w: World, s: Renaming, prog: Prog, p: Block, b: Block, sn: State, v: Value)
    requires f.HasTree() && f.Strict() && IsPromotion(f, s, prog) && b in f.t
    ensures v.PhiResult? && v.block == b && f.HasPhi(b, v.slot) ==>
              Eval(w, Cross(w, prog, sn, p, b), v) == Eval(w, sn, IncomingFor(prog.incoming, (b, v.slot), p))
    ensures !(v.PhiResult? && v.block == b) ==> Eval(w, Cross(w, prog, sn, p, b), v) == Eval(w, sn, v)
  {
    PhiKeysOf(f, s, prog, b);
  }

  /** A load whose block strictly dominates `b` was done before any predecessor of `b` ended. */
  lemma LoadBeforePred(f: Func, s: Renaming, p: Block, b: Block, id: nat)
    requires Sound(f) && Resolves(f, s) && f.g.Edge(p, b) && p in f.t && b in f.t && b != ENTRY
    requires id in s && f.Before(f.pos[id].0, f.pos[id].1, b, PhiCount(f.body[b]))
    ensures f.Before(f.pos[id].0, f.pos[id].1, p, |f.body[p]|)
    ensures !(s[id].PhiResult? && s[id].block == b)
  {
    var (b', k') := f.pos[id];
    var d := Parent(f.t, b);
    assert b' != b;
    assert b' in Anc(f.t, f.post, d);
    ParentAbovePred(f, p, b);
    AncAbove(f.t, f.post, p, d);
    LoadAvailable(f, s, id, b, PhiCount(f.body[b]));
    AncAbove(f.t, f.post, d, b');
    if s[id].PhiResult? && s[id].block == b {
      AncAbove(f.t, f.post, b', b);
    }
  }

  lemma ParentAbovePred(f: Func, p: Block, b: Block)
    requires f.HasTree() && PostOrdered(f.g, f.post) && Fixpoint(f.g, f.t, f.post)
    requires f.g.Edge(p, b) && p in f.t && b in f.t && b != ENTRY
    ensures Parent(f.t, b) in Anc(f.t, f.post, p)
  {
    var n := Parent(f.t, b);
    assert AtMeet(f.g, f.t, f.post, b);
    assert n in Anc(f.t, f.post, n);
    assert p in f.g.preds[b];
    assert Common(f.t, f.post, Processed(f.g, f.t, b), n);
  }

  lemma CrossLoads(f: Func, w: World, s: Renaming, prog: Prog, p: Block, b: Block, so: State, sn: State)
    requires Sound(f) && IsPromotion(f, s, prog) && f.g.Edge(p, b) && p in f.t && b in f.t && b != ENTRY
    requires LoadsResolved(f, w, s, p, |f.body[p]|, so, sn)
    ensures LoadsResolved(f, w, s, b, PhiCount(f.body[b]), so, Cross(w, prog, sn, p, b))
  {
    hide Func.PhisPlaced;
    forall id | id in s && f.Before(f.pos[id].0, f.pos[id].1, b, PhiCount(f.body[b]))
      ensures Lookup(so.env, id, w.undef) == Eval(w, Cross(w, prog, sn, p, b), s[id])
    {
      LoadBeforePred(f, s, p, b, id);
      CrossEval(f, w, s, prog, p, b, sn, s[id]);
    }
  }

  /** Crossing an edge gives every cell the definition that reaches the start of the block. */
  lemma CrossCell(f: Func, w: World, s: Renaming, prog: Prog, p: Block, b: Block, sn: State, a: Slot)
    requires Sound(f) && IsPromotion(f, s, prog) && f.g.Edge(p, b) && p in f.t && b in f.t && b != ENTRY
    requires a in f.prom
    ensures Eval(w, Cross(w, prog, sn, p, b), Res(s, f.Reach(b, PhiCount(f.body[b]), a))) ==
            Eval(w, sn, Res(s, f.ReachOut(p, a)))
  {
    var n := PhiCount(f.body[b]);
    ReachAfterPhis(f, b, n, a);
    PhisAreAllInFront(f, b, a);
    if f.HasPhi(b, a) {
      CrossEval(f, w, s, prog, p, b, sn, PhiResult(b, a));
      PhiOperand(f, s, prog, p, b, a);
    } else {
      CrossNoPhi(f, w, s, prog, p, b, sn, a);
    }
  }

  lemma PhiOperand(f: Func, s: Renaming, prog: Prog, p: Block, b: Block, a: Slot)
    requires f.HasTree() && IsPromotion(f, s, prog) && f.g.Edge(p, b) && p in f.t && f.HasPhi(b, a)
    ensures IncomingFor(prog.incoming, (b, a), p) == Res(s, f.ReachOut(p, a))
  {
  }

  lemma CrossNoPhi(f: Func, w: World, s: Renaming, prog: Prog, p: Block, b: Block, sn: State, a: Slot)
    requires Sound(f) && IsPromotion(f, s, prog) && f.g.Edge(p, b) && p in f.t && b in f.t && b != ENTRY
    requires a in f.prom && !f.HasPhi(b, a)
    ensures Eval(w, Cross(w, prog, sn, p, b), Res(s, f.AboveReach(b, a))) == Eval(w, sn, Res(s, f.ReachOut(p, a)))
  {
    assert p in f.g.preds[b];
    PredsAgree(f, b, p, a);
    var d := Parent(f.t, b);
    ReachAvailable(f, d, |f.body[d]|, a);
    ResAvailable(f, s, f.AboveReach(b, a), d, |f.body[d]|);
    AvailableInChild(f, Res(s, f.AboveReach(b, a)), b);
    CrossEval(f, w, s, prog, p, b, sn, Res(s, f.AboveReach(b, a)));
  }

  /** Crossing an edge keeps the simulation; the original program has no phis to take. */
  lemma EdgeSim(f: Func, w: World, s: Renaming, prog: Prog, p: Block, b: Block, so: State, sn: State)
    requires Sound(f) && IsPromotion(f, s, prog) && f.g.Edge(p, b) && p in f.t && b in f.t && b != ENTRY
    requires Sim(f, w, s, p, |f.body[p]|, so, sn)
    ensures Sim(f, w, s, b, PhiCount(f.body[b]), so, Cross(w, prog, sn, p, b))
  {
    hide Func.Strict, Func.PhisPlaced, Resolves, PhisFilled, PostOrdered, Fixpoint, KeepsDominators, LoadsResolved,
         SameEnv;
    var sn' := Cross(w, prog, sn, p, b);
    CrossLoads(f, w, s, prog, p, b, so, sn);
    forall a | a in f.prom
      ensures Lookup(so.mem, a, w.undef) == Eval(w, sn', Res(s, f.Reach(b, PhiCount(f.body[b]), a)))
    {
      CrossCell(f, w, s, prog, p, b, sn, a);
    }
    EdgeEnv(f, w, so, sn, sn');
  }

  lemma EdgeEnv(f: Func, w: World, so: State, sn: State, sn': State)
    requires SameEnv(f, w, so, sn) && sn'.env == sn.env
    ensures SameEnv(f, w, so, sn')
  {
  }

  // ----- whole paths -----

  /** A body without phis does not look at them. */
  ghost predicate SameButPhis(x: State, y: State) {
    x.env == y.env && x.mem == y.mem && x.trace == y.trace
  }

  /** `plain` is `f.body` without its phis. */
  ghost predicate IsPlain(f: Func, plain: Body)
    requires f.HasTree()
  {
    |plain| == |f.body| &&
    forall b :: 0 <= b < |plain| ==> f.body[b][PhiCount(f.body[b])..] == plain[b]
  }

  lemma EvalNoPhi(w: World, x: State, y: State, vs: seq<Value>)
    requires SameButPhis(x, y) && forall v :: v in vs ==> !v.PhiResult?
    ensures EvalAll(w, x, vs) == EvalAll(w, y, vs)
  {
    forall i | 0 <= i < |vs|
      ensures Eval(w, x, vs[i]) == Eval(w, y, vs[i])
    {
      assert vs[i] in vs;
    }
  }

  lemma {:induction false} ExecNoPhi(w: World, prom: set<Slot>, code: seq<Instr>, x: State, y: State)
    requires SameButPhis(x, y) && forall i, v :: i in code && v in i.Args() ==> !v.PhiResult?
    ensures SameButPhis(ExecAll(w, prom, code, x), ExecAll(w, prom, code, y))
    decreases |code|
  {
    if code != [] {
      var i := code[|code| - 1];
      ExecNoPhi(w, prom, code[..|code| - 1], x, y);
      var x', y' := ExecAll(w, prom, code[..|code| - 1], x), ExecAll(w, prom, code[..|code| - 1], y);
      EvalNoPhi(w, x', y', i.Args());
      if i.Store? {
        assert i.val in i.Args();
      }
    }
  }

  /** Phis in front of a block do nothing when it runs. */
  lemma {:induction false} ExecAfterPhis(w: World, prom: set<Slot>, phis: seq<Instr>, code: seq<Instr>, st: State)
    requires forall j :: 0 <= j < |phis| ==> phis[j].Phi?
    ensures ExecAll(w, prom, phis + code, st) == ExecAll(w, prom, code, st)
    decreases |code|
  {
    if code == [] {
      assert phis + code == phis;
      PhisDoNothing(w, prom, map[], phis, st);
    } else {
      var front, i := code[..|code| - 1], code[|code| - 1];
      ExecAfterPhis(w, prom, phis, front, st);
      assert phis + code == (phis + front) + [i];
      ExecAllSnoc(w, prom, phis + front, i, st);
    }
  }

  lemma PlainPrefix(f: Func, w: World, plain: Body, b: Block, k: nat, x: State, y: State)
    requires f.HasTree() && f.Strict() && IsPlain(f, plain) && b < |plain| && SameButPhis(x, y)
    requires PhiCount(f.body[b]) <= k <= |f.body[b]|
    ensures |plain[b]| == |f.body[b]| - PhiCount(f.body[b])
    ensures SameButPhis(ExecAll(w, f.prom, plain[b][..k - PhiCount(f.body[b])], x),
                        ExecAll(w, f.prom, f.body[b][..k], y))
  {
    var n := PhiCount(f.body[b]);
    var code := plain[b][..k - n];
    assert f.body[b][..k] == f.body[b][..n] + code;
    ExecAfterPhis(w, f.prom, f.body[b][..n], code, y);
    forall i, v | i in code && v in i.Args()
      ensures !v.PhiResult?
    {
      var j :| 0 <= j < |code| && code[j] == i;
      assert f.At(b, n + j, i);
    }
    ExecNoPhi(w, f.prom, code, x, y);
  }

  lemma PlainBlock(f: Func, w: World, plain: Body, b: Block, x: State, y: State)
    requires f.HasTree() && f.Strict() && IsPlain(f, plain) && b < |plain| && SameButPhis(x, y)
    ensures SameButPhis(ExecAll(w, f.prom, plain[b], x), ExecAll(w, f.prom, f.body[b], y))
  {
    PlainPrefix(f, w, plain, b, |f.body[b]|, x, y);
    assert f.body[b][..|f.body[b]|] == f.body[b];
    assert plain[b][..|plain[b]|] == plain[b];
  }

  lemma InTree(f: Func, p: seq<Block>, b: Block)
    requires f.HasTree() && f.g.PathTo(p, b)
    ensures b in f.t && forall i :: 0 <= i < |p| ==> p[i] < |f.body|
  {
    PathInside(f.g, p, b);
  }

  /** The state of the original program on entering the last block of a walk, and after it, against the promoted
      program. */
  lemma {:induction false} PathSim(f: Func, w: World, s: Renaming, plain: Body, prog: Prog, p: seq<Block>, b: Block)
      returns (so: State)
    requires Sound(f) && IsPlain(f, plain) && IsPromotion(f, s, prog) && f.g.PathTo(p, b)
    ensures b in f.t && forall i :: 0 <= i < |p| ==> p[i] < |f.body|
    ensures SameButPhis(EntryState(w, f.prom, Prog(plain, map[]), p), so)
    ensures Sim(f, w, s, b, PhiCount(f.body[b]), so, EntryState(w, f.prom, prog, p))
    decreases |p|
  {
    InTree(f, p, b);
    var orig := Prog(plain, map[]);
    if |p| == 1 {
      so := START;
      EntrySim(f, w, s);
    } else {
      var q, c := p[..|p| - 1], p[|p| - 2];
      so := PathSim(f, w, s, plain, prog, q, c);
      BlockSim(f, w, s, c, |f.body[c]|, so, EntryState(w, f.prom, prog, q));
      PlainBlock(f, w, plain, c, EntryState(w, f.prom, orig, q), so);
      assert f.body[c][..|f.body[c]|] == f.body[c];
      so := ExecAll(w, f.prom, f.body[c], so);
      NotEntry(f, c, b);
      EdgeSim(f, w, s, prog, c, b, so, RunPath(w, f.prom, prog, q));
    }
  }

  lemma NotEntry(f: Func, c: Block, b: Block)
    requires Sound(f) && f.g.Edge(c, b)
    ensures b != ENTRY
  {
  }

  lemma EntrySim(f: Func, w: World, s: Renaming)
    requires Sound(f) && Resolves(f, s) && ENTRY in f.t
    ensures Sim(f, w, s, ENTRY, PhiCount(f.body[ENTRY]), START, START)
  {
    var n := PhiCount(f.body[ENTRY]);
    if n > 0 {
      assert f.At(ENTRY, 0, f.body[ENTRY][0]);
      assert f.HasPhi(ENTRY, f.body[ENTRY][0].slot);
      assert false;
    }
    assert Anc(f.t, f.post, ENTRY) == {ENTRY};
    assert SameEnv(f, w, START, START);
  }

  /** Promotion keeps the trace of every walk from the entry block, whatever the oracle answers. */
  lemma PromotionKeepsTrace(f: Func, w: World, s: Renaming, plain: Body, prog: Prog, p: seq<Block>, b: Block)
    requires Sound(f) && IsPlain(f, plain) && IsPromotion(f, s, prog) && f.g.PathTo(p, b)
    ensures forall i :: 0 <= i < |p| ==> p[i] < |f.body|
    ensures RunPath(w, f.prom, prog, p).trace == RunPath(w, f.prom, Prog(plain, map[]), p).trace
  {
    var so := PathSim(f, w, s, plain, prog, p, b);
    BlockSim(f, w, s, b, |f.body[b]|, so, EntryState(w, f.prom, prog, p));
    assert f.body[b][..|f.body[b]|] == f.body[b];
    PlainBlock(f, w, plain, b, EntryState(w, f.prom, Prog(plain, map[]), p), so);
  }

  lemma LoadPosition(f: Func, s: Renaming, plain: Body, id: nat)
    requires f.HasTree() && f.Strict() && f.PhisPlaced() && IsPlain(f, plain) && Resolves(f, s) && f.IsPromotedLoad(id)
    ensures var (b, k) := f.pos[id];
            && b in f.t && PhiCount(f.body[b]) <= k < |f.body[b]|
            && k - PhiCount(f.body[b]) < |plain[b]| && plain[b][k - PhiCount(f.body[b])] == f.body[b][k]
            && f.body[b][k].ptr.id in f.prom
            && s[id] == Res(s, f.Reach(b, k, f.body[b][k].ptr.id))
  {
    hide Func.Strict, Func.PhisPlaced, IsTree;
  }

  /** On every walk to a promoted load, what replaces the load evaluates, at that point of the promoted program, to
      what was last stored to its variable, or to undef if nothing was. */
  lemma LoadSeesLastStore(f: Func, w: World, s: Renaming, plain: Body, prog: Prog, p: seq<Block>, id: nat)
    requires Sound(f) && IsPlain(f, plain) && IsPromotion(f, s, prog) && f.IsPromotedLoad(id)
    requires f.g.PathTo(p, f.pos[id].0)
    ensures forall i :: 0 <= i < |p| ==> p[i] < |f.body|
    ensures var (b, k) := f.pos[id];
            var n := PhiCount(f.body[b]);
            && n <= k < |f.body[b]| && k - n < |plain[b]| && plain[b][k - n] == f.body[b][k]
            && var before := ExecAll(w, f.prom, plain[b][..k - n], EntryState(w, f.prom, Prog(plain, map[]), p));
               var after := ExecAll(w, f.prom, Renamed(s, f.prom, f.body[b][..k]), EntryState(w, f.prom, prog, p));
               Eval(w, after, s[id]) == Lookup(before.mem, f.body[b][k].ptr.id, w.undef)
  {
    hide Func.Strict, Func.PhisPlaced, PhisFilled, PostOrdered, Fixpoint, KeepsDominators, Resolves;
    hide Renamed, ExecAll, EntryState, SameEnv, LoadsResolved, PhiCount;
    LoadPosition(f, s, plain, id);
    var (b, k) := f.pos[id];
    var so := PathSim(f, w, s, plain, prog, p, b);
    BlockSim(f, w, s, b, k, so, EntryState(w, f.prom, prog, p));
    PlainPrefix(f, w, plain, b, k, EntryState(w, f.prom, Prog(plain, map[]), p), so);
  }
}
