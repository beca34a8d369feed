/** Moving instructions out of a loop to the block that control enters it from, and what runs then do. */
module HoistRuns {
  import opened Graphs
  import opened SsaRun
  import opened DeadCodeElimination

  /** `moved` goes in front of the last instruction of `preheader`; elsewhere only `stay` is left. */
  datatype Move = Move(loop: set<Block>, preheader: Block, moved: seq<Ins>, stay: set<nat>)

  predicate NotInLoop(body: Body, loop: set<Block>, x: nat) {
    forall c :: c in loop ==> c < |body| && forall j :: 0 <= j < |body[c]| ==> body[c][j].id != x
  }

  /** Control enters the loop only from the preheader. */
  ghost predicate EntersFrom(g: Cfg, loop: set<Block>, preheader: Block) {
    ENTRY !in loop && preheader !in loop &&
    forall u: Block, v: Block {:trigger g.Edge(u, v)} :: g.Edge(u, v) && v in loop && u !in loop ==> u == preheader
  }

  /** An instruction of the loop without an effect of its own. */
  ghost predicate FromLoop(body: Body, loop: set<Block>, i: Ins) {
    i.Ins? && !i.critical && exists c: Block, j: nat :: c in loop && c < |body| && j < |body[c]| && body[c][j] == i
  }

  /** The operands of a moved instruction lie outside the loop or move before it. */
  ghost predicate OperandOk(body: Body, mv: Move, n: nat, o: Operand)
    requires n <= |mv.moved| && mv.preheader < |body| && |body[mv.preheader]| > 0
  {
    o.Ref? ==> (exists i :: 0 <= i < n && mv.moved[i].id == o.id) ||
               (NotInLoop(body, mv.loop, o.id) && o.id != Terminator(body, mv).id)
  }

  function Terminator(body: Body, mv: Move): Ins
    requires mv.preheader < |body| && |body[mv.preheader]| > 0
  {
    body[mv.preheader][|body[mv.preheader]| - 1]
  }

  ghost predicate OperandsOk(body: Body, mv: Move, n: nat)
    requires n < |mv.moved| && mv.preheader < |body| && |body[mv.preheader]| > 0
  {
    forall o :: o in mv.moved[n].Operands() ==> OperandOk(body, mv, n, o)
  }

  ghost predicate CanMove(g: Cfg, body: Body, mv: Move) {
    && EntersFrom(g, mv.loop, mv.preheader)
    && mv.preheader < |body| && |body[mv.preheader]| > 0 && Terminator(body, mv).Ins?
    && (forall n :: 0 <= n < |mv.moved| ==> FromLoop(body, mv.loop, mv.moved[n]) && OperandsOk(body, mv, n))
    && (forall i, n :: 0 <= i < n < |mv.moved| ==> mv.moved[i].id != mv.moved[n].id)
    && (forall b, k {:trigger body[b][k]} :: 0 <= b < |body| && 0 <= k < |body[b]| ==>
          (body[b][k].id in mv.stay <==> body[b][k] !in mv.moved))
  }

  lemma MoveShape(g: Cfg, body: Body, mv: Move)
    requires CanMove(g, body, mv)
    ensures EntersFrom(g, mv.loop, mv.preheader)
    ensures mv.preheader < |body| && |body[mv.preheader]| > 0 && Terminator(body, mv).Ins?
  {
    hide FromLoop, OperandsOk;
  }

  lemma MovedIs(g: Cfg, body: Body, mv: Move, n: nat)
    requires CanMove(g, body, mv) && n < |mv.moved|
    ensures FromLoop(body, mv.loop, mv.moved[n]) && mv.preheader < |body| && |body[mv.preheader]| > 0
    ensures OperandsOk(body, mv, n) && mv.moved[n].Ins? && !mv.moved[n].critical
    ensures forall i :: 0 <= i < |mv.moved| && i != n ==> mv.moved[i].id != mv.moved[n].id
  {
    hide OperandsOk;
  }

  /** What is left of the first `k` instructions of a block, and has come. */
  function MovedCode(body: Body, mv: Move, b: Block, k: nat): seq<Ins>
    requires b < |body| && k <= |body[b]|
  {
    if b != mv.preheader then Kept(body[b][..k], mv.stay)
    else if k < |body[b]| || k == 0 then body[b][..k]
    else body[b][..k - 1] + mv.moved + [body[b][k - 1]]
  }

  function MovedBody(body: Body, mv: Move): (r: Body)
    ensures |r| == |body|
  {
    seq(|body|, b requires 0 <= b < |body| => MovedCode(body, mv, b, |body[b]|))
  }

  /** The moved instructions compute from their operands alone. */
  ghost predicate ComputesAlone(f: Machine, mv: Move) {
    forall i, xs: seq<int>, tr: seq<Event> {:trigger f(i.id, xs, tr), i in mv.moved} ::
      i in mv.moved ==> f(i.id, xs, tr) == f(i.id, xs, [])
  }

  // ----- dominance -----

  lemma {:induction false} ThroughPreheader(g: Cfg, loop: set<Block>, preheader: Block, w: seq<Block>, c: Block)
    requires EntersFrom(g, loop, preheader) && c in loop && g.PathTo(w, c)
    ensures preheader in w
    decreases |w|
  {
    var u := w[|w| - 2];
    assert g.Edge(u, c);
    if u in loop {
      ThroughPreheader(g, loop, preheader, w[..|w| - 1], u);
    }
  }

  lemma PreheaderDominates(g: Cfg, loop: set<Block>, preheader: Block, c: Block)
    requires EntersFrom(g, loop, preheader) && c in loop
    ensures g.StrictlyDominates(preheader, c)
  {
    forall w | g.PathTo(w, c)
      ensures preheader in w
    {
      ThroughPreheader(g, loop, preheader, w, c);
    }
  }

  /** In the preheader nothing of the loop is at hand. */
  lemma NotInPreheader(g: Cfg, body: Body, mv: Move, n: nat, k: nat, w: seq<Block>)
    requires CanMove(g, body, mv) && UniqueSites(body) && n < |mv.moved| && g.PathTo(w, mv.preheader)
    ensures !Available(g, body, mv.preheader, k, mv.moved[n].id)
  {
    hide CanMove, UniqueSites, EntersFrom, Cfg.Dominates, Cfg.PathTo, OperandsOk;
    MoveShape(g, body, mv);
    MovedIs(g, body, mv, n);
    var i := mv.moved[n];
    var c: Block, j: nat :| c in mv.loop && c < |body| && j < |body[c]| && body[c][j] == i;
    assert DefinedAt(body, c, j, i.id);
    PreheaderDominates(g, mv.loop, mv.preheader, c);
    if Available(g, body, mv.preheader, k, i.id) {
      var d: Block, l: nat :| DefinedAt(body, d, l, i.id) && Reaches(g, body, d, l, mv.preheader, k);
      SameSite(body, c, j, d, l, i.id);
      NoMutualDominance(g, c, mv.preheader, w);
    }
  }

  // ----- the two runs -----

  /** Equal where it matters. */
  ghost predicate Alike(g: Cfg, body: Body, b: Block, k: nat, s: State, s': State) {
    s.trace == s'.trace && forall x :: Available(g, body, b, k, x) ==> Read(s, Ref(x)) == Read(s', Ref(x))
  }

  /** The first `n` moved instructions have been computed from what their operands are now. */
  ghost predicate Computed(f: Machine, mv: Move, n: nat, s: State)
    requires n <= |mv.moved|
  {
    forall i :: 0 <= i < n ==> ComputedOne(f, mv.moved[i], s)
  }

  predicate ComputedOne(f: Machine, i: Ins, s: State) {
    i.Ins? && Read(s, Ref(i.id)) == f(i.id, ReadAll(s, i.ops), [])
  }

  lemma ReadsAlike(g: Cfg, body: Body, b: Block, k: nat, s: State, s': State, ops: seq<Operand>)
    requires Alike(g, body, b, k, s, s') && forall i :: 0 <= i < |ops| ==> OperandAvailable(g, body, b, k, ops[i])
    ensures ReadAll(s, ops) == ReadAll(s', ops)
  {
    hide Available;
    forall i | 0 <= i < |ops|
      ensures Read(s, ops[i]) == Read(s', ops[i])
    {
      assert OperandAvailable(g, body, b, k, ops[i]);
    }
  }

  /** An instruction that stays. */
  lemma StepBoth(f: Machine, g: Cfg, body: Body, b: Block, k: nat, s: State, s': State)
    requires b < |body| && k < |body[b]| && StrictAt(g, body, b, k) && Alike(g, body, b, k, s, s')
    ensures Alike(g, body, b, k + 1, Exec(f, body[b][k], s), Exec(f, body[b][k], s'))
  {
    hide Available, OperandAvailable;
    var i := body[b][k];
    if i.Ins? {
      ReadsAlike(g, body, b, k, s, s', i.ops);
    }
    forall x | Available(g, body, b, k + 1, x)
      ensures Read(Exec(f, i, s), Ref(x)) == Read(Exec(f, i, s'), Ref(x))
    {
      AvailableStep(g, body, b, k, x);
      if i.Phi? || i.id != x {
        ExecKeeps(f, i, s, x);
        ExecKeeps(f, i, s', x);
      }
    }
  }

  /** An instruction that has moved: its value is already there. */
  lemma StepMoved(f: Machine, g: Cfg, body: Body, mv: Move, b: Block, k: nat, s: State, s': State)
    requires b < |body| && k < |body[b]| && StrictAt(g, body, b, k) && Alike(g, body, b, k, s, s')
    requires body[b][k] in mv.moved && !body[b][k].IsCritical() && ComputesAlone(f, mv)
    requires ComputedOne(f, body[b][k], s')
    ensures Alike(g, body, b, k + 1, Exec(f, body[b][k], s), s')
  {
    hide Available, OperandAvailable;
    var i := body[b][k];
    ReadsAlike(g, body, b, k, s, s', i.ops);
    assert f(i.id, ReadAll(s, i.ops), s.trace) == f(i.id, ReadAll(s, i.ops), []);
    forall x | Available(g, body, b, k + 1, x)
      ensures Read(Exec(f, i, s), Ref(x)) == Read(s', Ref(x))
    {
      AvailableStep(g, body, b, k, x);
      if i.id != x {
        ExecKeeps(f, i, s, x);
      }
    }
  }

  /** What neither is a moved instruction nor an operand of one may change. */
  lemma ComputedStays(f: Machine, mv: Move, n: nat, s: State, s': State)
    requires n <= |mv.moved| && Computed(f, mv, n, s)
    requires forall i :: 0 <= i < n ==> Read(s', Ref(mv.moved[i].id)) == Read(s, Ref(mv.moved[i].id))
    requires forall i, o :: 0 <= i < n && o in mv.moved[i].Operands() ==> Read(s', o) == Read(s, o)
    ensures Computed(f, mv, n, s')
  {
    forall i | 0 <= i < n
      ensures ComputedOne(f, mv.moved[i], s')
    {
      assert ComputedOne(f, mv.moved[i], s);
      var ops := mv.moved[i].ops;
      forall j | 0 <= j < |ops|
        ensures Read(s', ops[j]) == Read(s, ops[j])
      {
        assert ops[j] in mv.moved[i].Operands();
      }
      assert ReadAll(s', ops) == ReadAll(s, ops);
    }
  }

  /** An instruction of the loop that stays is no operand of a moved one. */
  lemma NoOperand(g: Cfg, body: Body, mv: Move, n: nat, o: Operand, b: Block, k: nat)
    requires CanMove(g, body, mv) && n < |mv.moved| && o in mv.moved[n].Operands() && b in mv.loop && b < |body|
    requires k < |body[b]| && UniqueSites(body) && (body[b][k] !in mv.moved || body[b][k].Phi?)
    ensures o != Ref(body[b][k].id) && mv.moved[n].id != body[b][k].id
  {
    hide CanMove, UniqueSites;
    MoveShape(g, body, mv);
    MovedIs(g, body, mv, n);
    assert OperandOk(body, mv, n, o);
    NotAMoved(g, body, mv, n, b, k);
    if o == Ref(body[b][k].id) && !NotInLoop(body, mv.loop, o.id) {
      var i :| 0 <= i < n && mv.moved[i].id == o.id;
      NotAMoved(g, body, mv, i, b, k);
    }
  }

  lemma NotAMoved(g: Cfg, body: Body, mv: Move, n: nat, b: Block, k: nat)
    requires CanMove(g, body, mv) && n < |mv.moved| && b < |body| && k < |body[b]| && UniqueSites(body)
    requires body[b][k] !in mv.moved || body[b][k].Phi?
    ensures mv.moved[n].id != body[b][k].id
  {
    hide CanMove, UniqueSites, OperandsOk;
    MovedIs(g, body, mv, n);
    var c: Block, j: nat :| c in mv.loop && c < |body| && j < |body[c]| && body[c][j] == mv.moved[n];
    if mv.moved[n].id == body[b][k].id {
      assert DefinedAt(body, c, j, mv.moved[n].id) && DefinedAt(body, b, k, mv.moved[n].id);
      SameSite(body, c, j, b, k, mv.moved[n].id);
    }
  }

  /** Inside the loop, what stays changes nothing that moved instructions are computed from. */
  lemma ComputedStep(f: Machine, g: Cfg, body: Body, mv: Move, b: Block, k: nat, s: State)
    requires CanMove(g, body, mv) && UniqueSites(body) && b in mv.loop && b < |body| && k < |body[b]|
    requires body[b][k] !in mv.moved && Computed(f, mv, |mv.moved|, s)
    ensures Computed(f, mv, |mv.moved|, Exec(f, body[b][k], s))
  {
    hide CanMove, UniqueSites, Computed, Exec;
    var i := body[b][k];
    forall n | 0 <= n < |mv.moved|
      ensures Read(Exec(f, i, s), Ref(mv.moved[n].id)) == Read(s, Ref(mv.moved[n].id))
    {
      NotAMoved(g, body, mv, n, b, k);
      ExecKeeps(f, i, s, mv.moved[n].id);
    }
    forall n, o | 0 <= n < |mv.moved| && o in mv.moved[n].Operands()
      ensures Read(Exec(f, i, s), o) == Read(s, o)
    {
      NoOperand(g, body, mv, n, o, b, k);
      if o.Ref? {
        ExecKeeps(f, i, s, o.id);
      }
    }
    ComputedStays(f, mv, |mv.moved|, s, Exec(f, i, s));
  }

  // ----- in the preheader -----

  /** Computing the moved instructions in order. */
  lemma {:induction false} ComputeAll(f: Machine, g: Cfg, body: Body, mv: Move, n: nat, s: State)
    requires CanMove(g, body, mv) && n <= |mv.moved| && ComputesAlone(f, mv)
    ensures Computed(f, mv, n, ExecAll(f, mv.moved[..n], s)) && ExecAll(f, mv.moved[..n], s).trace == s.trace
    ensures forall x :: (forall i :: 0 <= i < n ==> mv.moved[i].id != x) ==>
              Read(ExecAll(f, mv.moved[..n], s), Ref(x)) == Read(s, Ref(x))
    decreases n
  {
    hide CanMove;
    if n > 0 {
      ComputeAll(f, g, body, mv, n - 1, s);
      MovedIs(g, body, mv, n - 1);
      assert mv.moved[..n][..n - 1] == mv.moved[..n - 1];
      ComputeOne(f, g, body, mv, n - 1, ExecAll(f, mv.moved[..n - 1], s));
    }
  }

  lemma ComputeOne(f: Machine, g: Cfg, body: Body, mv: Move, n: nat, s: State)
    requires CanMove(g, body, mv) && n < |mv.moved| && ComputesAlone(f, mv) && Computed(f, mv, n, s)
    ensures Computed(f, mv, n + 1, Exec(f, mv.moved[n], s))
  {
    hide CanMove, Computed;
    var i, s' := mv.moved[n], Exec(f, mv.moved[n], s);
    MovedIs(g, body, mv, n);
    forall j, o | 0 <= j <= n && o in mv.moved[j].Operands()
      ensures o != Ref(i.id) && Read(s', o) == Read(s, o)
    {
      NotLater(g, body, mv, j, n, o);
      if o.Ref? {
        ExecKeeps(f, i, s, o.id);
      }
    }
    ComputedStays(f, mv, n, s, s');
    forall j | 0 <= j < |i.ops|
      ensures Read(s', i.ops[j]) == Read(s, i.ops[j])
    {
      assert i.ops[j] in i.Operands();
    }
    assert ReadAll(s', i.ops) == ReadAll(s, i.ops);
    assert i in mv.moved;
    assert ComputedOne(f, i, s');
    ComputedMore(f, mv, n, s');
  }

  lemma ComputedMore(f: Machine, mv: Move, n: nat, s: State)
    requires n < |mv.moved| && Computed(f, mv, n, s) && ComputedOne(f, mv.moved[n], s)
    ensures Computed(f, mv, n + 1, s)
  {
  }

  /** No operand is computed later. */
  lemma NotLater(g: Cfg, body: Body, mv: Move, j: nat, n: nat, o: Operand)
    requires CanMove(g, body, mv) && j <= n < |mv.moved| && o in mv.moved[j].Operands()
    ensures o != Ref(mv.moved[n].id)
  {
    hide CanMove;
    MovedIs(g, body, mv, j);
    MovedIs(g, body, mv, n);
    assert OperandOk(body, mv, j, o);
  }

  /** The end of the preheader: what has moved, and then the terminator. */
  lemma StepPreheader(f: Machine, g: Cfg, body: Body, mv: Move, k: nat, s: State, s': State, w: seq<Block>)
    requires CanMove(g, body, mv) && Strict(g, body) && ComputesAlone(f, mv) && g.PathTo(w, mv.preheader)
    requires mv.preheader < |body| && k == |body[mv.preheader]| - 1 && k >= 0
    requires Alike(g, body, mv.preheader, k, s, s')
    ensures var i, t := body[mv.preheader][k], ExecAll(f, mv.moved, s');
            && Alike(g, body, mv.preheader, k + 1, Exec(f, i, s), Exec(f, i, t))
            && Computed(f, mv, |mv.moved|, Exec(f, i, t))
  {
    hide CanMove, Strict, UniqueSites, Computed, Available, Exec, StrictAt, Cfg.PathTo;
    var p := mv.preheader;
    var i, t := body[p][k], ExecAll(f, mv.moved, s');
    StrictShape(g, body);
    StrictMeans(g, body, p, k);
    assert mv.moved[..|mv.moved|] == mv.moved;
    ComputeAll(f, g, body, mv, |mv.moved|, s');
    forall x | Available(g, body, p, k, x)
      ensures Read(s, Ref(x)) == Read(t, Ref(x))
    {
      forall n | 0 <= n < |mv.moved|
        ensures mv.moved[n].id != x
      {
        NotInPreheader(g, body, mv, n, k, w);
      }
    }
    StepBoth(f, g, body, p, k, s, t);
    TerminatorKeeps(f, g, body, mv, t);
  }

  lemma TerminatorKeeps(f: Machine, g: Cfg, body: Body, mv: Move, s: State)
    requires CanMove(g, body, mv) && UniqueSites(body) && Computed(f, mv, |mv.moved|, s)
    ensures mv.preheader < |body| && |body[mv.preheader]| > 0
    ensures Computed(f, mv, |mv.moved|, Exec(f, Terminator(body, mv), s))
  {
    hide CanMove, UniqueSites, Computed, Exec, EntersFrom;
    MoveShape(g, body, mv);
    var i := Terminator(body, mv);
    forall n | 0 <= n < |mv.moved|
      ensures mv.moved[n].id != i.id
    {
      LastNotMoved(g, body, mv, n);
    }
    forall n | 0 <= n < |mv.moved|
      ensures Read(Exec(f, i, s), Ref(mv.moved[n].id)) == Read(s, Ref(mv.moved[n].id))
    {
      ExecKeeps(f, i, s, mv.moved[n].id);
    }
    forall n, o | 0 <= n < |mv.moved| && o in mv.moved[n].Operands()
      ensures Read(Exec(f, i, s), o) == Read(s, o)
    {
      MovedIs(g, body, mv, n);
      assert OperandOk(body, mv, n, o);
      if o.Ref? {
        ExecKeeps(f, i, s, o.id);
      }
    }
    ComputedStays(f, mv, |mv.moved|, s, Exec(f, i, s));
  }

  lemma LastNotMoved(g: Cfg, body: Body, mv: Move, n: nat)
    requires CanMove(g, body, mv) && UniqueSites(body) && n < |mv.moved|
    ensures mv.preheader < |body| && |body[mv.preheader]| > 0 && mv.moved[n].id != Terminator(body, mv).id
  {
    hide CanMove, UniqueSites, OperandsOk;
    MoveShape(g, body, mv);
    MovedIs(g, body, mv, n);
    var i := mv.moved[n];
    var c: Block, j: nat :| c in mv.loop && c < |body| && j < |body[c]| && body[c][j] == i;
    if i.id == Terminator(body, mv).id {
      assert DefinedAt(body, c, j, i.id) && DefinedAt(body, mv.preheader, |body[mv.preheader]| - 1, i.id);
      SameSite(body, c, j, mv.preheader, |body[mv.preheader]| - 1, i.id);
    }
  }

  // ----- crossing an edge -----

  lemma {:induction false} PhisKept(code: seq<Ins>, m: set<nat>, p: Block, s: State)
    requires forall i :: i in code && i.Phi? ==> i.id in m
    ensures PhiValues(Kept(code, m), p, s) == PhiValues(code, p, s)
    decreases |code|
  {
    hide FromPred, Read;
    if code != [] {
      var front, last := code[..|code| - 1], code[|code| - 1];
      PhisKept(front, m, p, s);
      KeptLast(code, m);
      PhiSnoc(Kept(front, m), last, p, s);
      assert last in code;
    }
  }

  lemma {:induction false} PhisInserted(front: seq<Ins>, moved: seq<Ins>, p: Block, s: State)
    requires forall i :: i in moved ==> i.Ins?
    ensures PhiValues(front + moved, p, s) == PhiValues(front, p, s)
    decreases |moved|
  {
    if moved == [] {
      assert front + moved == front;
    } else {
      var n := |moved| - 1;
      assert moved[n] in moved;
      PhisInserted(front, moved[..n], p, s);
      PhiSnoc(front + moved[..n], moved[n], p, s);
      assert front + moved[..n] + [moved[n]] == front + moved;
    }
  }

  lemma MovedIn(g: Cfg, body: Body, mv: Move, i: Ins)
    requires CanMove(g, body, mv) && i in mv.moved
    ensures i.Ins? && !i.critical
  {
    hide CanMove;
    var n :| 0 <= n < |mv.moved| && mv.moved[n] == i;
    MovedIs(g, body, mv, n);
  }

  /** A block has the phis that it had. */
  lemma PhisMoved(g: Cfg, body: Body, mv: Move, b: Block, p: Block, s: State)
    requires CanMove(g, body, mv) && b < |body|
    ensures PhiValues(MovedCode(body, mv, b, |body[b]|), p, s) == PhiValues(body[b], p, s)
  {
    hide CanMove, FromPred, Read;
    MoveShape(g, body, mv);
    var code := body[b];
    assert code[..|code|] == code;
    if b != mv.preheader {
      forall i | i in code && i.Phi?
        ensures i.id in mv.stay
      {
        var k :| 0 <= k < |code| && code[k] == i;
        PhiStays(g, body, mv, b, k);
      }
      PhisKept(code, mv.stay, p, s);
    } else {
      var n := |code| - 1;
      forall i | i in mv.moved
        ensures i.Ins?
      {
        MovedIn(g, body, mv, i);
      }
      PhisInserted(code[..n], mv.moved, p, s);
      PhiSnoc(code[..n] + mv.moved, code[n], p, s);
      PhiSnoc(code[..n], code[n], p, s);
      assert code[..n] + [code[n]] == code;
    }
  }

  lemma PhiStays(g: Cfg, body: Body, mv: Move, b: Block, k: nat)
    requires CanMove(g, body, mv) && b < |body| && k < |body[b]|
    ensures body[b][k].id in mv.stay <==> body[b][k] !in mv.moved
    ensures body[b][k].Phi? ==> body[b][k].id in mv.stay
  {
    hide FromLoop, OperandsOk;
    if body[b][k] in mv.moved {
      var n :| 0 <= n < |mv.moved| && mv.moved[n] == body[b][k];
      assert FromLoop(body, mv.loop, mv.moved[n]);
      MovedIs(g, body, mv, n);
    }
  }

  lemma {:induction false} PhiValuesAlike(g: Cfg, body: Body, b: Block, k: nat, p: Block, s: State, s': State)
    requires Strict(g, body) && b < |body| && k <= |body[b]| && p < |body| && g.Edge(p, b)
    requires Alike(g, body, p, |body[p]|, s, s')
    ensures PhiValues(body[b][..k], p, s') == PhiValues(body[b][..k], p, s)
    decreases k
  {
    hide Strict, Alike, FromPred, OperandAvailable;
    if k > 0 {
      var last := body[b][k - 1];
      assert body[b][..k][..k - 1] == body[b][..k - 1];
      PhiValuesAlike(g, body, b, k - 1, p, s, s');
      StrictMeans(g, body, b, k - 1);
      if last.Phi? {
        OperandAlike(g, body, p, |body[p]|, s, s', FromPred(last.incoming, p));
      }
    }
  }

  lemma OperandAlike(g: Cfg, body: Body, b: Block, k: nat, s: State, s': State, o: Operand)
    requires Alike(g, body, b, k, s, s') && OperandAvailable(g, body, b, k, o)
    ensures Read(s, o) == Read(s', o)
  {
    hide Available;
  }

  /** Both runs enter the next block. */
  lemma EdgeBoth(f: Machine, g: Cfg, body: Body, mv: Move, p: Block, b: Block, s: State, s': State)
    requires CanMove(g, body, mv) && Strict(g, body) && b < |body| && p < |body| && g.Edge(p, b)
    requires Alike(g, body, p, |body[p]|, s, s')
    requires p in mv.loop || p == mv.preheader ==> Computed(f, mv, |mv.moved|, s')
    ensures var e := s.(env := s.env + PhiValues(body[b], p, s));
            var e' := s'.(env := s'.env + PhiValues(MovedCode(body, mv, b, |body[b]|), p, s'));
            Alike(g, body, b, 0, e, e') && (b in mv.loop ==> Computed(f, mv, |mv.moved|, e'))
  {
    hide CanMove, Strict, Computed, PhiValues, UniqueSites, MovedCode, FromPred;
    StrictShape(g, body);
    PhisMoved(g, body, mv, b, p, s');
    PhiValuesAlike(g, body, b, |body[b]|, p, s, s');
    assert body[b][..|body[b]|] == body[b];
    var v := PhiValues(body[b], p, s);
    EnvAlike(g, body, p, b, s, s', v);
    if b in mv.loop {
      MoveShape(g, body, mv);
      EnvComputed(f, g, body, mv, b, p, s, s', v);
    }
  }

  lemma EnvAlike(g: Cfg, body: Body, p: Block, b: Block, s: State, s': State, v: map<nat, int>)
    requires Strict(g, body) && b < |body| && p < |body| && g.Edge(p, b) && Alike(g, body, p, |body[p]|, s, s')
    requires v == PhiValues(body[b], p, s)
    ensures Alike(g, body, b, 0, s.(env := s.env + v), s'.(env := s'.env + v))
  {
    hide Strict, Available, PhiValues, UniqueSites, FromPred, Cfg.Edge;
    StrictShape(g, body);
    forall x | Available(g, body, b, 0, x)
      ensures Read(s.(env := s.env + v), Ref(x)) == Read(s'.(env := s'.env + v), Ref(x))
    {
      if x !in v {
        PhiValue(body[b], p, s, x);
        if IsPhiOf(body, b, x) {
          assert false;
        }
        AvailableEdge(g, body, p, b, x);
        assert Read(s, Ref(x)) == Read(s', Ref(x));
      }
    }
  }

  lemma EnvComputed(f: Machine, g: Cfg, body: Body, mv: Move, b: Block, p: Block, s: State, s': State, v: map<nat, int>)
    requires CanMove(g, body, mv) && UniqueSites(body) && b < |body| && b in mv.loop
    requires v == PhiValues(body[b], p, s) && Computed(f, mv, |mv.moved|, s')
    ensures Computed(f, mv, |mv.moved|, s'.(env := s'.env + v))
  {
    hide CanMove, Computed, PhiValues, UniqueSites, FromPred;
    var e' := s'.(env := s'.env + v);
    forall n | 0 <= n < |mv.moved|
      ensures mv.moved[n].id !in v
    {
      PhiValue(body[b], p, s, mv.moved[n].id);
      if mv.moved[n].id in v {
        var k: nat :| k < |body[b]| && body[b][k].Phi? && body[b][k].id == mv.moved[n].id;
        NotAMoved(g, body, mv, n, b, k);
        assert false;
      }
    }
    forall n, o | 0 <= n < |mv.moved| && o in mv.moved[n].Operands()
      ensures Read(e', o) == Read(s', o)
    {
      if o.Ref? && o.id in v {
        PhiValue(body[b], p, s, o.id);
        var k: nat :| k < |body[b]| && body[b][k].Phi? && body[b][k].id == o.id;
        NoOperand(g, body, mv, n, o, b, k);
        assert false;
      }
    }
    ComputedStays(f, mv, |mv.moved|, s', e');
  }

  // ----- whole runs -----

  lemma {:induction false} ExecAppend(f: Machine, a: seq<Ins>, b: seq<Ins>, s: State)
    ensures ExecAll(f, a + b, s) == ExecAll(f, b, ExecAll(f, a, s))
    decreases |b|
  {
    if b == [] {
      assert a + b == a;
    } else {
      var n := |b| - 1;
      ExecAppend(f, a, b[..n], s);
      ExecSnoc(f, a + b[..n], b[n], s);
      assert a + b[..n] + [b[n]] == a + b;
    }
  }

  /** The moved body's run, at the place that corresponds to instruction `k` of the original's last block. */
  function MovedTo(f: Machine, body: Body, mv: Move, start: map<nat, int>, path: seq<Block>, k: nat): State
    requires PathIn(body, path) && k <= |body[Last(path)]|
    requires PathIn(MovedBody(body, mv), path)
  {
    ExecAll(f, MovedCode(body, mv, Last(path), k), Enter(f, MovedBody(body, mv), start, path))
  }

  lemma MovedRun(f: Machine, body: Body, mv: Move, start: map<nat, int>, path: seq<Block>)
    requires PathIn(body, path) && PathIn(MovedBody(body, mv), path)
    ensures MovedTo(f, body, mv, start, path, |body[Last(path)]|) == Run(f, MovedBody(body, mv), start, path)
  {
  }

  /** One step of the original and what corresponds to it. */
  lemma CodeStep(body: Body, mv: Move, b: Block, k: nat)
    requires b < |body| && k < |body[b]|
    ensures MovedCode(body, mv, b, k + 1) ==
            if b != mv.preheader then MovedCode(body, mv, b, k) + if body[b][k].id in mv.stay then [body[b][k]] else []
            else if k + 1 < |body[b]| then MovedCode(body, mv, b, k) + [body[b][k]]
            else MovedCode(body, mv, b, k) + mv.moved + [body[b][k]]
  {
    var code := body[b][..k + 1];
    assert code[..k] == body[b][..k] && code == body[b][..k] + [body[b][k]];
    if b != mv.preheader {
      KeptLast(code, mv.stay);
    }
  }

  ghost predicate Together(f: Machine, g: Cfg, body: Body, mv: Move, b: Block, k: nat, s: State, s': State)
    requires b < |body|
  {
    && Alike(g, body, b, k, s, s')
    && (b in mv.loop || (b == mv.preheader && k == |body[b]|) ==> Computed(f, mv, |mv.moved|, s'))
  }

  lemma StepTogether(f: Machine, g: Cfg, body: Body, mv: Move, b: Block, k: nat, s: State, e: State, w: seq<Block>)
    requires CanMove(g, body, mv) && Strict(g, body) && ComputesAlone(f, mv) && g.PathTo(w, b)
    requires b < |body| && k < |body[b]|
    requires Together(f, g, body, mv, b, k, s, ExecAll(f, MovedCode(body, mv, b, k), e))
    ensures Together(f, g, body, mv, b, k + 1, Exec(f, body[b][k], s), ExecAll(f, MovedCode(body, mv, b, k + 1), e))
  {
    hide CanMove, Strict, ComputesAlone, Alike, Computed, Exec, UniqueSites, MovedCode, ExecAll, Cfg.PathTo, StrictAt,
         EntersFrom;
    StrictShape(g, body);
    StrictMeans(g, body, b, k);
    MoveShape(g, body, mv);
    CodeStep(body, mv, b, k);
    PhiStays(g, body, mv, b, k);
    var i, s' := body[b][k], ExecAll(f, MovedCode(body, mv, b, k), e);
    if b == mv.preheader && k + 1 == |body[b]| {
      StepPreheader(f, g, body, mv, k, s, s', w);
      ExecAppend(f, MovedCode(body, mv, b, k), mv.moved, e);
      ExecSnoc(f, MovedCode(body, mv, b, k) + mv.moved, i, e);
      OutsideLoop(g, mv);
    } else if b == mv.preheader || i !in mv.moved {
      StepBoth(f, g, body, b, k, s, s');
      ExecSnoc(f, MovedCode(body, mv, b, k), i, e);
      if b in mv.loop {
        OutsideLoop(g, mv);
        ComputedStep(f, g, body, mv, b, k, s');
      }
    } else {
      MovedHere(f, g, body, mv, b, k, s');
      assert MovedCode(body, mv, b, k) + [] == MovedCode(body, mv, b, k);
      StepMoved(f, g, body, mv, b, k, s, s');
    }
  }

  lemma OutsideLoop(g: Cfg, mv: Move)
    requires EntersFrom(g, mv.loop, mv.preheader)
    ensures mv.preheader !in mv.loop
  {
  }

  /** A moved instruction is found in the loop, where its value is already there. */
  lemma MovedHere(f: Machine, g: Cfg, body: Body, mv: Move, b: Block, k: nat, s: State)
    requires CanMove(g, body, mv) && UniqueSites(body) && b < |body| && k < |body[b]| && body[b][k] in mv.moved
    requires b in mv.loop ==> Computed(f, mv, |mv.moved|, s)
    ensures b in mv.loop && ComputedOne(f, body[b][k], s) && !body[b][k].IsCritical()
  {
    hide CanMove, UniqueSites, ComputedOne, OperandsOk;
    var n :| 0 <= n < |mv.moved| && mv.moved[n] == body[b][k];
    MovedIs(g, body, mv, n);
    var c: Block, j: nat :| c in mv.loop && c < |body| && j < |body[c]| && body[c][j] == mv.moved[n];
    assert DefinedAt(body, c, j, mv.moved[n].id) && DefinedAt(body, b, k, mv.moved[n].id);
    SameSite(body, c, j, b, k, mv.moved[n].id);
    assert ComputedOne(f, mv.moved[n], s);
  }

  /** On every path, wherever the original is, the moved body has the same trace and the same values at hand. */
  lemma {:induction false} RunsTogether(f: Machine, g: Cfg, body: Body, mv: Move, start: map<nat, int>,
                                        path: seq<Block>, b: Block, k: nat)
    requires CanMove(g, body, mv) && Strict(g, body) && |body| == g.Size() && ComputesAlone(f, mv)
    requires g.PathTo(path, b) && k <= |body[b]|
    ensures PathIn(body, path) && PathIn(MovedBody(body, mv), path) && Last(path) == b
    ensures Together(f, g, body, mv, b, k, RunTo(f, body, start, path, k), MovedTo(f, body, mv, start, path, k))
    decreases |path|, k
  {
    hide CanMove, Strict, ComputesAlone, Together, Exec, RunTo, Enter, Run, MovedCode;
    PathWalks(g, body, path, b);
    PathWalks(g, MovedBody(body, mv), path, b);
    if k > 0 {
      RunsTogether(f, g, body, mv, start, path, b, k - 1);
      RunStep(f, body, start, path, k - 1);
      StepTogether(f, g, body, mv, b, k - 1, RunTo(f, body, start, path, k - 1),
                   Enter(f, MovedBody(body, mv), start, path), path);
    } else {
      RunBegins(f, body, start, path);
      MovedBegins(f, body, mv, start, path);
      if |path| > 1 {
        var path0, p := path[..|path| - 1], path[|path| - 2];
        RunsTogether(f, g, body, mv, start, path0, p, |body[p]|);
        RunIsRunTo(f, body, start, path0);
        MovedRun(f, body, mv, start, path0);
        EnterTogether(f, g, body, mv, start, path, b);
      } else {
        StartTogether(f, g, body, mv, start, path, b);
      }
    }
  }

  lemma MovedBegins(f: Machine, body: Body, mv: Move, start: map<nat, int>, path: seq<Block>)
    requires PathIn(body, path) && PathIn(MovedBody(body, mv), path)
    ensures MovedTo(f, body, mv, start, path, 0) == Enter(f, MovedBody(body, mv), start, path)
  {
  }

  lemma StartTogether(f: Machine, g: Cfg, body: Body, mv: Move, start: map<nat, int>, path: seq<Block>, b: Block)
    requires CanMove(g, body, mv) && g.PathTo(path, b) && |path| == 1 && PathIn(body, path)
    requires PathIn(MovedBody(body, mv), path)
    ensures b < |body|
    ensures Together(f, g, body, mv, b, 0, Enter(f, body, start, path), Enter(f, MovedBody(body, mv), start, path))
  {
    hide CanMove, Available;
    MoveShape(g, body, mv);
    EnterFirst(f, body, start, path);
    EnterFirst(f, MovedBody(body, mv), start, path);
  }

  lemma EnterTogether(f: Machine, g: Cfg, body: Body, mv: Move, start: map<nat, int>, path: seq<Block>, b: Block)
    requires CanMove(g, body, mv) && Strict(g, body) && |body| == g.Size() && g.PathTo(path, b) && |path| > 1
    requires PathIn(body, path) && PathIn(MovedBody(body, mv), path) && Last(path) == b && b < |body|
    requires var path0, p := path[..|path| - 1], path[|path| - 2];
             && PathIn(body, path0) && PathIn(MovedBody(body, mv), path0) && p < |body| && g.Edge(p, b)
             && Together(f, g, body, mv, p, |body[p]|, Run(f, body, start, path0),
                         Run(f, MovedBody(body, mv), start, path0))
    ensures Together(f, g, body, mv, b, 0, Enter(f, body, start, path), Enter(f, MovedBody(body, mv), start, path))
  {
    hide CanMove, Strict, Run, Alike, Computed, EntersFrom;
    var path0, p := path[..|path| - 1], path[|path| - 2];
    MoveShape(g, body, mv);
    EdgeBoth(f, g, body, mv, p, b, Run(f, body, start, path0), Run(f, MovedBody(body, mv), start, path0));
  }

  /** Hoisting keeps every run: along any walk, the same stores, calls, branches and returns with the same operands. */
  lemma HoistingKeepsRuns(f: Machine, g: Cfg, body: Body, mv: Move, start: map<nat, int>, path: seq<Block>, b: Block)
    requires CanMove(g, body, mv) && Strict(g, body) && ComputesAlone(f, mv) && g.PathTo(path, b)
    ensures TraceKept(f, body, MovedBody(body, mv), start, path)
  {
    hide CanMove, Strict, ComputesAlone, Available, Computed, Run, RunTo, MovedTo;
    StrictShape(g, body);
    PathWalks(g, body, path, b);
    RunsTogether(f, g, body, mv, start, path, b, |body[b]|);
    RunIsRunTo(f, body, start, path);
    MovedRun(f, body, mv, start, path);
  }
}
