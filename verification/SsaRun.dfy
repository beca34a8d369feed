/** Running code in SSA form along a path of blocks, and which values are at hand where. */
module SsaRun {
  import opened Graphs

  datatype Operand = Ref(id: nat) | Other(c: int)

  /** Critical are stores, branches, returns and calls of impure functions. */
  datatype Ins =
    | Ins(id: nat, ops: seq<Operand>, critical: bool)
    | Phi(id: nat, incoming: seq<(Operand, Block)>)
  {
    function Operands(): seq<Operand> {
      if Phi? then seq(|incoming|, i requires 0 <= i < |incoming| => incoming[i].0) else ops
    }

    predicate IsCritical() {
      Ins? && critical
    }
  }

  type Body = seq<seq<Ins>>

  // ----- running -----

  /** A critical instruction and what it read. */
  datatype Event = Event(id: nat, read: seq<int>)

  /** Results depend on the operands and on the critical instructions before. */
  type Machine = (nat, seq<int>, seq<Event>) -> int

  datatype State = State(env: map<nat, int>, trace: seq<Event>)

  function Read(s: State, o: Operand): int {
    match o
    case Other(c) => c
    case Ref(id) => if id in s.env then s.env[id] else 0
  }

  function ReadAll(s: State, ops: seq<Operand>): seq<int> {
    seq(|ops|, i requires 0 <= i < |ops| => Read(s, ops[i]))
  }

  function FromPred(incoming: seq<(Operand, Block)>, p: Block): Operand {
    if incoming == [] then Other(0) else if incoming[0].1 == p then incoming[0].0 else FromPred(incoming[1..], p)
  }

  function Exec(f: Machine, i: Ins, s: State): State {
    if i.Phi? then s
    else
      var args := ReadAll(s, i.ops);
      var trace := if i.critical then s.trace + [Event(i.id, args)] else s.trace;
      State(s.env[i.id := f(i.id, args, trace)], trace)
  }

  function ExecAll(f: Machine, code: seq<Ins>, s: State): State {
    if code == [] then s else Exec(f, code[|code| - 1], ExecAll(f, code[..|code| - 1], s))
  }

  /** Crossing an edge: all phis read before any changes. */
  function PhiValues(code: seq<Ins>, p: Block, s: State): map<nat, int> {
    if code == [] then map[]
    else
      var front, last := PhiValues(code[..|code| - 1], p, s), code[|code| - 1];
      if last.Phi? then front[last.id := Read(s, FromPred(last.incoming, p))] else front
  }

  predicate PathIn(body: Body, path: seq<Block>) {
    |path| > 0 && forall k :: 0 <= k < |path| ==> path[k] < |body|
  }

  function Last(path: seq<Block>): Block
    requires |path| > 0
  {
    path[|path| - 1]
  }

  /** The state when the last block of the path begins: its phis have been assigned. */
  function Enter(f: Machine, body: Body, start: map<nat, int>, path: seq<Block>): State
    requires PathIn(body, path)
    decreases |path|, 0
  {
    if |path| == 1 then State(start, [])
    else
      var s := Run(f, body, start, path[..|path| - 1]);
      s.(env := s.env + PhiValues(body[Last(path)], path[|path| - 2], s))
  }

  function Run(f: Machine, body: Body, start: map<nat, int>, path: seq<Block>): State
    requires PathIn(body, path)
    decreases |path|, 1
  {
    ExecAll(f, body[Last(path)], Enter(f, body, start, path))
  }

  /** The state before instruction `k` of the last block. */
  function RunTo(f: Machine, body: Body, start: map<nat, int>, path: seq<Block>, k: nat): State
    requires PathIn(body, path) && k <= |body[Last(path)]|
  {
    ExecAll(f, body[Last(path)][..k], Enter(f, body, start, path))
  }

  /** Along a path, two bodies do the same stores, calls, branches and returns, with the same operands. */
  ghost predicate TraceKept(f: Machine, body: Body, body': Body, start: map<nat, int>, path: seq<Block>) {
    PathIn(body, path) && PathIn(body', path) && Run(f, body, start, path).trace == Run(f, body', start, path).trace
  }

  lemma RunIsRunTo(f: Machine, body: Body, start: map<nat, int>, path: seq<Block>)
    requires PathIn(body, path)
    ensures Run(f, body, start, path) == RunTo(f, body, start, path, |body[Last(path)]|)
  {
    assert body[Last(path)][..|body[Last(path)]|] == body[Last(path)];
  }

  lemma RunStep(f: Machine, body: Body, start: map<nat, int>, path: seq<Block>, k: nat)
    requires PathIn(body, path) && k < |body[Last(path)]|
    ensures RunTo(f, body, start, path, k + 1) == Exec(f, body[Last(path)][k], RunTo(f, body, start, path, k))
  {
    var code := body[Last(path)];
    assert code[..k + 1][..k] == code[..k];
  }

  lemma RunBegins(f: Machine, body: Body, start: map<nat, int>, path: seq<Block>)
    requires PathIn(body, path)
    ensures RunTo(f, body, start, path, 0) == Enter(f, body, start, path)
  {
  }

  lemma PathWalks(g: Cfg, body: Body, path: seq<Block>, b: Block)
    requires |body| == g.Size() && g.PathTo(path, b)
    ensures PathIn(body, path) && Last(path) == b
    ensures |path| > 1 ==> g.PathTo(path[..|path| - 1], path[|path| - 2]) && g.Edge(path[|path| - 2], b)
    ensures |path| > 1 ==> PathIn(body, path[..|path| - 1]) && Last(path[..|path| - 1]) == path[|path| - 2]
  {
    PathBlocksReachable(g, path, b);
    assert forall k :: 0 <= k < |path| ==> path[k] in path;
  }

  // ----- where values are defined -----

  predicate DefinedAt(body: Body, b: Block, k: nat, x: nat) {
    b < |body| && k < |body[b]| && body[b][k].id == x
  }

  ghost predicate IsDefined(body: Body, x: nat) {
    exists b: Block, k: nat :: DefinedAt(body, b, k, x)
  }

  /** Every value is defined in one place. */
  ghost predicate UniqueSites(body: Body) {
    forall b: Block, k: nat, c: Block, j: nat, x {:trigger DefinedAt(body, b, k, x), DefinedAt(body, c, j, x)} ::
      DefinedAt(body, b, k, x) && DefinedAt(body, c, j, x) ==> b == c && k == j
  }

  ghost predicate IsPhiOf(body: Body, b: Block, x: nat) {
    exists k: nat :: DefinedAt(body, b, k, x) && body[b][k].Phi?
  }

  /** What is defined at instruction `j` of `c` is at hand before instruction `k` of `b`. */
  predicate EarlierIn(body: Body, c: Block, j: nat, b: Block, k: nat) {
    c == b && b < |body| && j < |body[b]| && (j < k || body[b][j].Phi?)
  }

  ghost predicate Reaches(g: Cfg, body: Body, c: Block, j: nat, b: Block, k: nat) {
    g.StrictlyDominates(c, b) || EarlierIn(body, c, j, b, k)
  }

  /** `x` is at hand before instruction `k` of `b`; phis are from the beginning of their block on. */
  ghost predicate Available(g: Cfg, body: Body, b: Block, k: nat, x: nat) {
    !IsDefined(body, x) || exists c: Block, j: nat :: DefinedAt(body, c, j, x) && Reaches(g, body, c, j, b, k)
  }

  ghost predicate OperandAvailable(g: Cfg, body: Body, b: Block, k: nat, o: Operand) {
    o.Ref? ==> Available(g, body, b, k, o.id)
  }

  ghost predicate StrictAt(g: Cfg, body: Body, b: Block, k: nat)
    requires b < |body| && k < |body[b]|
  {
    match body[b][k]
    case Ins(_, ops, _) => forall i :: 0 <= i < |ops| ==> OperandAvailable(g, body, b, k, ops[i])
    case Phi(_, incoming) =>
      forall p: Block :: p < |body| && g.Edge(p, b) ==> OperandAvailable(g, body, p, |body[p]|, FromPred(incoming, p))
  }

  /** SSA form: definitions dominate uses, where a phi uses its operands at the ends of the predecessors. */
  ghost predicate Strict(g: Cfg, body: Body) {
    && g.Valid() && |body| == g.Size() && UniqueSites(body)
    && forall b: Block, k: nat :: b < |body| && k < |body[b]| ==> StrictAt(g, body, b, k)
  }

  lemma StrictMeans(g: Cfg, body: Body, b: Block, k: nat)
    requires Strict(g, body) && b < |body| && k < |body[b]|
    ensures StrictAt(g, body, b, k)
  {
  }

  lemma StrictShape(g: Cfg, body: Body)
    requires Strict(g, body)
    ensures g.Valid() && |body| == g.Size() && UniqueSites(body)
  {
    hide UniqueSites, StrictAt;
  }

  lemma SameSite(body: Body, c: Block, j: nat, b: Block, k: nat, x: nat)
    requires UniqueSites(body) && DefinedAt(body, c, j, x) && DefinedAt(body, b, k, x)
    ensures b == c && j == k
  {
  }

  lemma OneSite(code: Body, d: Block, i: nat, b: Block, k: nat)
    requires UniqueSites(code) && d < |code| && i < |code[d]| && b < |code| && k < |code[b]|
    requires code[d][i].id == code[b][k].id
    ensures d == b && i == k
  {
    assert DefinedAt(code, d, i, code[d][i].id) && DefinedAt(code, b, k, code[d][i].id);
  }

  /** What is at hand after an instruction was so before, or is its result. */
  lemma AvailableStep(g: Cfg, body: Body, b: Block, k: nat, x: nat)
    requires b < |body| && k < |body[b]| && Available(g, body, b, k + 1, x)
    ensures Available(g, body, b, k, x) || (body[b][k].id == x && body[b][k].Ins?)
  {
    hide Cfg.StrictlyDominates;
    if IsDefined(body, x) {
      var c: Block, j: nat :| DefinedAt(body, c, j, x) && Reaches(g, body, c, j, b, k + 1);
      if c == b && j == k && body[b][k].Ins? {
        assert body[b][k].id == x;
      } else {
        assert Reaches(g, body, c, j, b, k);
      }
    }
  }

  lemma AvailableLater(g: Cfg, body: Body, b: Block, k: nat, k': nat, x: nat)
    requires Available(g, body, b, k, x) && k <= k'
    ensures Available(g, body, b, k', x)
  {
    hide Cfg.StrictlyDominates;
    if IsDefined(body, x) {
      var c: Block, j: nat :| DefinedAt(body, c, j, x) && Reaches(g, body, c, j, b, k);
      assert Reaches(g, body, c, j, b, k');
    }
  }

  /** What is at hand when a block begins, and is no phi of it, was so at the end of the predecessor. */
  lemma AvailableEdge(g: Cfg, body: Body, p: Block, b: Block, x: nat)
    requires g.Valid() && |body| == g.Size() && g.Edge(p, b) && p < |body| && Available(g, body, b, 0, x)
    ensures Available(g, body, p, |body[p]|, x) || IsPhiOf(body, b, x)
  {
    hide Cfg.Dominates;
    if IsDefined(body, x) {
      var c: Block, j: nat :| DefinedAt(body, c, j, x) && Reaches(g, body, c, j, b, 0);
      if g.StrictlyDominates(c, b) {
        StrictDominatorOfPred(g, c, p, b);
        assert Reaches(g, body, c, j, p, |body[p]|);
      } else {
        assert DefinedAt(body, b, j, x) && body[b][j].Phi?;
      }
    }
  }

  /** At the entry, which no block dominates strictly, only what stands there is at hand. */
  lemma AvailableAtStart(g: Cfg, body: Body, x: nat)
    requires g.Valid() && Available(g, body, ENTRY, 0, x) && IsDefined(body, x)
    ensures IsPhiOf(body, ENTRY, x)
  {
    assert g.PathTo([ENTRY], ENTRY);
    var c: Block, j: nat :| DefinedAt(body, c, j, x) && Reaches(g, body, c, j, ENTRY, 0);
    assert !g.StrictlyDominates(c, ENTRY);
    assert DefinedAt(body, ENTRY, j, x) && body[ENTRY][j].Phi?;
  }

  // ----- dominance -----

  lemma DominanceTransitive(g: Cfg, a: Block, b: Block, c: Block)
    requires g.Dominates(a, b) && g.Dominates(b, c)
    ensures g.Dominates(a, c)
  {
    forall p | g.PathTo(p, c)
      ensures a in p
    {
      var i :| 0 <= i < |p| && p[i] == b;
      PathPrefix(g, p, c, i);
      assert a in p[..i + 1];
    }
  }

  /** Two different blocks that control reaches do not dominate each other. */
  lemma {:induction false} NoMutualDominance(g: Cfg, a: Block, b: Block, p: seq<Block>)
    requires g.PathTo(p, b) && g.StrictlyDominates(a, b)
    ensures !g.Dominates(b, a)
    decreases |p|
  {
    if g.Dominates(b, a) {
      var i :| 0 <= i < |p| && p[i] == a;
      PathPrefix(g, p, b, i);
      var j :| 0 <= j < |p[..i + 1]| && p[..i + 1][j] == b;
      PathPrefix(g, p, b, j);
      NoMutualDominance(g, a, b, p[..j + 1]);
    }
  }

  lemma StrictTransitive(g: Cfg, a: Block, b: Block, c: Block, p: seq<Block>)
    requires g.StrictlyDominates(a, b) && g.Dominates(b, c) && g.PathTo(p, c)
    ensures g.StrictlyDominates(a, c)
  {
    hide Cfg.Dominates;
    DominanceTransitive(g, a, b, c);
    if a == c {
      DominatedReachable(g, b, c, p);
      var q :| g.PathTo(q, b);
      NoMutualDominance(g, a, b, q);
    }
  }

  lemma DominatedReachable(g: Cfg, b: Block, c: Block, p: seq<Block>)
    requires g.Dominates(b, c) && g.PathTo(p, c)
    ensures g.Reachable(b)
  {
    var i :| 0 <= i < |p| && p[i] == b;
    PathPrefix(g, p, c, i);
  }

  /** What is at hand where `v` is defined is at hand wherever `v` is. */
  lemma ReachesTrans(g: Cfg, body: Body, d: Block, i: nat, c: Block, j: nat, b: Block, k: nat, p: seq<Block>)
    requires c < |body| && j < |body[c]|
    requires Reaches(g, body, d, i, c, j) && Reaches(g, body, c, j, b, k) && g.PathTo(p, b)
    ensures Reaches(g, body, d, i, b, k) ||
            (EarlierIn(body, c, j, b, k) && body[c][j].Phi? && EarlierIn(body, d, i, c, j))
  {
    hide Cfg.Dominates;
    if g.StrictlyDominates(d, c) && g.StrictlyDominates(c, b) {
      StrictTransitive(g, d, c, b, p);
    }
  }

  /** No two definitions reach each other, phis of one block apart. */
  lemma NoCircularReach(g: Cfg, body: Body, c: Block, j: nat, b: Block, k: nat, p: seq<Block>)
    requires g.PathTo(p, b) && b < |body| && k < |body[b]|
    requires Reaches(g, body, c, j, b, k) && Reaches(g, body, b, k, c, j)
    ensures b == c && (body[b][k].Phi? || body[b][j].Phi?)
  {
    hide Cfg.Dominates;
    if g.StrictlyDominates(c, b) {
      NoMutualDominance(g, c, b, p);
    } else if g.StrictlyDominates(b, c) {
      assert false;
    }
  }

  // ----- crossing an edge -----

  lemma {:induction false} PhiValue(code: seq<Ins>, p: Block, s: State, x: nat)
    ensures x in PhiValues(code, p, s) <==> exists k: nat :: k < |code| && code[k].Phi? && code[k].id == x
    ensures x in PhiValues(code, p, s) ==> exists k: nat :: k < |code| && code[k].Phi? && code[k].id == x &&
                                             PhiValues(code, p, s)[x] == Read(s, FromPred(code[k].incoming, p))
    decreases |code|
  {
    if code != [] {
      var front, last := code[..|code| - 1], code[|code| - 1];
      PhiValue(front, p, s, x);
      if last.Phi? && last.id == x {
        assert code[|code| - 1].id == x;
      } else if k: nat :| k < |code| && code[k].Phi? && code[k].id == x {
        assert front[k] == code[k];
      }
    }
  }

  /** A value that is no phi of the block is as it was at the end of the predecessor. */
  lemma EnterKeeps(f: Machine, body: Body, start: map<nat, int>, path: seq<Block>, x: nat)
    requires PathIn(body, path) && |path| > 1 && !IsPhiOf(body, Last(path), x)
    ensures PathIn(body, path[..|path| - 1])
    ensures Read(Enter(f, body, start, path), Ref(x)) == Read(Run(f, body, start, path[..|path| - 1]), Ref(x))
  {
    var b, s := Last(path), Run(f, body, start, path[..|path| - 1]);
    PhiValue(body[b], path[|path| - 2], s, x);
    if k: nat :| k < |body[b]| && body[b][k].Phi? && body[b][k].id == x {
      assert DefinedAt(body, b, k, x);
    }
  }

  /** A phi has what its operand for the predecessor was. */
  lemma EnterPhi(f: Machine, body: Body, start: map<nat, int>, path: seq<Block>, k: nat)
    requires PathIn(body, path) && |path| > 1 && UniqueSites(body)
    requires k < |body[Last(path)]| && body[Last(path)][k].Phi?
    ensures PathIn(body, path[..|path| - 1])
    ensures var phi := body[Last(path)][k];
            Read(Enter(f, body, start, path), Ref(phi.id)) ==
            Read(Run(f, body, start, path[..|path| - 1]), FromPred(phi.incoming, path[|path| - 2]))
  {
    var b, s := Last(path), Run(f, body, start, path[..|path| - 1]);
    var x := body[b][k].id;
    PhiValue(body[b], path[|path| - 2], s, x);
    var j: nat :| j < |body[b]| && body[b][j].Phi? && body[b][j].id == x &&
                  PhiValues(body[b], path[|path| - 2], s)[x] ==
                  Read(s, FromPred(body[b][j].incoming, path[|path| - 2]));
    assert DefinedAt(body, b, j, x) && DefinedAt(body, b, k, x);
  }

  /** Instructions change nothing but their own result. */
  lemma ExecKeeps(f: Machine, i: Ins, s: State, x: nat)
    requires i.Phi? || i.id != x
    ensures Read(Exec(f, i, s), Ref(x)) == Read(s, Ref(x))
  {
  }

  // ----- other operands -----

  /** Other operands in the place of values. */
  type Subst = map<nat, Operand>

  function Instead(sub: Subst, o: Operand): Operand {
    if o.Ref? && o.id in sub then sub[o.id] else o
  }

  function RewrittenOps(ops: seq<Operand>, sub: Subst): seq<Operand> {
    seq(|ops|, i requires 0 <= i < |ops| => Instead(sub, ops[i]))
  }

  function RewrittenIncoming(incoming: seq<(Operand, Block)>, sub: Subst): seq<(Operand, Block)> {
    seq(|incoming|, i requires 0 <= i < |incoming| => (Instead(sub, incoming[i].0), incoming[i].1))
  }

  function RewrittenIns(i: Ins, sub: Subst): (r: Ins)
    ensures r.Phi? == i.Phi? && r.id == i.id
  {
    match i
    case Ins(id, ops, critical) => Ins(id, RewrittenOps(ops, sub), critical)
    case Phi(id, incoming) => Phi(id, RewrittenIncoming(incoming, sub))
  }

  function RewrittenCode(code: seq<Ins>, sub: Subst): (r: seq<Ins>)
    ensures |r| == |code|
  {
    seq(|code|, k requires 0 <= k < |code| => RewrittenIns(code[k], sub))
  }

  /** The code with every use replaced. */
  function Rewritten(body: Body, sub: Subst): (r: Body)
    ensures |r| == |body|
    ensures forall b :: 0 <= b < |body| ==> r[b] == RewrittenCode(body[b], sub)
  {
    seq(|body|, b requires 0 <= b < |body| => RewrittenCode(body[b], sub))
  }

  /** Where a value is at hand, it is equal to what is read instead. */
  ghost predicate SameAt(g: Cfg, body: Body, sub: Subst, b: Block, k: nat, s: State) {
    forall x :: x in sub && Available(g, body, b, k, x) ==> Read(s, Ref(x)) == Read(s, sub[x])
  }

  /** This is so on every path. */
  ghost predicate SameOnPaths(f: Machine, g: Cfg, body: Body, sub: Subst, start: map<nat, int>)
    requires |body| == g.Size()
  {
    forall path: seq<Block>, b: Block, k: nat {:trigger SameAlong(f, g, body, sub, start, path, b, k)} ::
      g.PathTo(path, b) && k <= |body[b]| ==> SameAlong(f, g, body, sub, start, path, b, k)
  }

  ghost predicate SameAlong(f: Machine, g: Cfg, body: Body, sub: Subst, start: map<nat, int>, path: seq<Block>,
                            b: Block, k: nat)
    requires |body| == g.Size() && g.PathTo(path, b) && k <= |body[b]|
  {
    PathWalks(g, body, path, b);
    SameAt(g, body, sub, b, k, RunTo(f, body, start, path, k))
  }

  lemma OperandSame(g: Cfg, body: Body, sub: Subst, b: Block, k: nat, s: State, o: Operand)
    requires SameAt(g, body, sub, b, k, s) && OperandAvailable(g, body, b, k, o)
    ensures Read(s, Instead(sub, o)) == Read(s, o)
  {
    hide Available;
  }

  lemma OneInsSame(f: Machine, g: Cfg, body: Body, sub: Subst, b: Block, k: nat, s: State)
    requires b < |body| && k < |body[b]| && StrictAt(g, body, b, k) && SameAt(g, body, sub, b, k, s)
    ensures Exec(f, RewrittenIns(body[b][k], sub), s) == Exec(f, body[b][k], s)
  {
    hide SameAt, OperandAvailable;
    if body[b][k].Ins? {
      var ops := body[b][k].ops;
      forall i | 0 <= i < |ops|
        ensures Read(s, RewrittenOps(ops, sub)[i]) == Read(s, ops[i])
      {
        OperandSame(g, body, sub, b, k, s, ops[i]);
      }
      assert ReadAll(s, RewrittenOps(ops, sub)) == ReadAll(s, ops);
    }
  }

  lemma {:induction false} FromPredRewritten(incoming: seq<(Operand, Block)>, sub: Subst, p: Block)
    ensures FromPred(RewrittenIncoming(incoming, sub), p) == Instead(sub, FromPred(incoming, p))
    decreases |incoming|
  {
    if incoming != [] {
      assert RewrittenIncoming(incoming, sub)[1..] == RewrittenIncoming(incoming[1..], sub);
      FromPredRewritten(incoming[1..], sub, p);
    }
  }

  lemma {:induction false} PhisSame(g: Cfg, body: Body, sub: Subst, b: Block, k: nat, p: Block, s: State)
    requires Strict(g, body) && b < |body| && k <= |body[b]| && p < |body| && g.Edge(p, b)
    requires SameAt(g, body, sub, p, |body[p]|, s)
    ensures PhiValues(RewrittenCode(body[b], sub)[..k], p, s) == PhiValues(body[b][..k], p, s)
    decreases k
  {
    hide Strict, SameAt, OperandAvailable, FromPred;
    if k > 0 {
      var code, code' := body[b][..k], RewrittenCode(body[b], sub)[..k];
      var last := body[b][k - 1];
      assert code[..k - 1] == body[b][..k - 1] && code'[..k - 1] == RewrittenCode(body[b], sub)[..k - 1];
      PhisSame(g, body, sub, b, k - 1, p, s);
      StrictMeans(g, body, b, k - 1);
      if last.Phi? {
        OperandSame(g, body, sub, p, |body[p]|, s, FromPred(last.incoming, p));
        FromPredRewritten(last.incoming, sub, p);
      }
    }
  }

  /** Reading equal values instead, code runs as before. */
  lemma {:induction false} RewrittenRuns(f: Machine, g: Cfg, body: Body, sub: Subst, start: map<nat, int>,
                                         path: seq<Block>, b: Block, k: nat)
    requires Strict(g, body) && |body| == g.Size() && SameOnPaths(f, g, body, sub, start)
    requires g.PathTo(path, b) && k <= |body[b]|
    ensures PathIn(body, path) && PathIn(Rewritten(body, sub), path) && Last(path) == b
    ensures RunTo(f, Rewritten(body, sub), start, path, k) == RunTo(f, body, start, path, k)
    decreases |path|, k
  {
    hide Strict, SameAt, Exec, RunTo, Enter, Run;
    var body' := Rewritten(body, sub);
    PathWalks(g, body, path, b);
    PathWalks(g, body', path, b);
    if k > 0 {
      RewrittenRuns(f, g, body, sub, start, path, b, k - 1);
      RunStep(f, body, start, path, k - 1);
      RunStep(f, body', start, path, k - 1);
      assert SameAlong(f, g, body, sub, start, path, b, k - 1);
      StrictMeans(g, body, b, k - 1);
      OneInsSame(f, g, body, sub, b, k - 1, RunTo(f, body, start, path, k - 1));
    } else {
      RunBegins(f, body, start, path);
      RunBegins(f, body', start, path);
      if |path| > 1 {
        var path0, p := path[..|path| - 1], path[|path| - 2];
        RewrittenRuns(f, g, body, sub, start, path0, p, |body[p]|);
        RunIsRunTo(f, body, start, path0);
        RunIsRunTo(f, body', start, path0);
        assert SameAlong(f, g, body, sub, start, path0, p, |body[p]|);
        EnterRewritten(f, g, body, sub, start, path);
      } else {
        EnterFirst(f, body, start, path);
        EnterFirst(f, body', start, path);
      }
    }
  }

  lemma EnterFirst(f: Machine, body: Body, start: map<nat, int>, path: seq<Block>)
    requires PathIn(body, path) && |path| == 1
    ensures Enter(f, body, start, path) == State(start, [])
  {
  }

  lemma EnterRewritten(f: Machine, g: Cfg, body: Body, sub: Subst, start: map<nat, int>, path: seq<Block>)
    requires Strict(g, body) && PathIn(body, path) && PathIn(Rewritten(body, sub), path) && |path| > 1
    requires g.Edge(path[|path| - 2], Last(path))
    requires var path0 := path[..|path| - 1];
             && PathIn(body, path0) && PathIn(Rewritten(body, sub), path0)
             && Run(f, Rewritten(body, sub), start, path0) == Run(f, body, start, path0)
             && SameAt(g, body, sub, Last(path0), |body[Last(path0)]|, Run(f, body, start, path0))
    ensures Enter(f, Rewritten(body, sub), start, path) == Enter(f, body, start, path)
  {
    hide Strict, SameAt, Run;
    var b, p := Last(path), path[|path| - 2];
    var s := Run(f, body, start, path[..|path| - 1]);
    PhisSame(g, body, sub, b, |body[b]|, p, s);
    assert body[b][..|body[b]|] == body[b];
    assert RewrittenCode(body[b], sub)[..|body[b]|] == RewrittenCode(body[b], sub);
  }

  /** The whole run, and so its trace. */
  lemma RewrittenRun(f: Machine, g: Cfg, body: Body, sub: Subst, start: map<nat, int>, path: seq<Block>, b: Block)
    requires Strict(g, body) && |body| == g.Size() && SameOnPaths(f, g, body, sub, start) && g.PathTo(path, b)
    ensures PathIn(body, path) && PathIn(Rewritten(body, sub), path)
    ensures Run(f, Rewritten(body, sub), start, path) == Run(f, body, start, path)
  {
    hide Strict, SameOnPaths, Run, RunTo;
    PathWalks(g, body, path, b);
    RewrittenRuns(f, g, body, sub, start, path, b, |body[b]|);
    RunIsRunTo(f, body, start, path);
    RunIsRunTo(f, Rewritten(body, sub), start, path);
  }
}
