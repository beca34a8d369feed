/** A phi with a single other incoming value has that value wherever it is at hand, so it can be replaced. */
module PhiRuns {
  import opened Graphs
  import opened SsaRun

  /** Apart from the phi itself, `o` is the only value that comes in. */
  ghost predicate OnlyOperand(i: Ins, o: Operand) {
    && i.Phi? && o != Ref(i.id)
    && forall n :: 0 <= n < |i.incoming| ==> i.incoming[n].0 == Ref(i.id) || i.incoming[n].0 == o
  }

  ghost predicate ComesFrom(incoming: seq<(Operand, Block)>, p: Block) {
    exists n :: 0 <= n < |incoming| && incoming[n].1 == p
  }

  /** Every phi has an operand for each predecessor. */
  ghost predicate PhisCover(g: Cfg, body: Body) {
    forall p: Block, b: Block, k: nat {:trigger g.Edge(p, b), body[b][k]} ::
      b < |body| && k < |body[b]| && body[b][k].Phi? && g.Edge(p, b) ==> ComesFrom(body[b][k].incoming, p)
  }

  /** SSA form, with phis for all predecessors and none in the entry block; control reaches every block. */
  ghost predicate WellFormed(g: Cfg, body: Body) {
    && Strict(g, body) && PhisCover(g, body) && 0 < |body| == g.Size()
    && (forall k: nat :: k < |body[ENTRY]| ==> body[ENTRY][k].Ins?)
    && (forall b: Block :: b < |body| ==> g.Reachable(b))
  }

  lemma WellFormedParts(g: Cfg, body: Body)
    requires WellFormed(g, body)
    ensures Strict(g, body) && PhisCover(g, body) && UniqueSites(body) && g.Valid() && 0 < |body| == g.Size()
    ensures forall b: Block :: b < |body| ==> g.Reachable(b)
    ensures forall k: nat :: k < |body[ENTRY]| ==> body[ENTRY][k].Ins?
  {
    hide PhisCover, UniqueSites, StrictAt;
  }

  /** The operand for a predecessor is the phi itself or the other value. */
  lemma {:induction false} OneOrOther(incoming: seq<(Operand, Block)>, p: Block, x: Operand, o: Operand)
    requires forall n :: 0 <= n < |incoming| ==> incoming[n].0 == x || incoming[n].0 == o
    requires ComesFrom(incoming, p)
    ensures FromPred(incoming, p) == x || FromPred(incoming, p) == o
    decreases |incoming|
  {
    if incoming[0].1 != p {
      var n :| 0 <= n < |incoming| && incoming[n].1 == p;
      assert incoming[1..][n - 1].1 == p;
      OneOrOther(incoming[1..], p, x, o);
    }
  }

  /** The first time that a walk comes to its last block. */
  lemma {:induction false} FirstVisit(g: Cfg, w: seq<Block>, b: Block) returns (i: nat)
    requires g.PathTo(w, b)
    ensures i < |w| && w[i] == b && b !in w[..i] && g.PathTo(w[..i + 1], b)
    decreases |w|
  {
    if b in w[..|w| - 1] {
      var j :| 0 <= j < |w| - 1 && w[j] == b;
      PathPrefix(g, w, b, j);
      i := FirstVisit(g, w[..j + 1], b);
      assert w[..j + 1][..i] == w[..i] && w[..j + 1][..i + 1] == w[..i + 1];
    } else {
      i := |w| - 1;
      assert w[..i + 1] == w;
    }
  }

  lemma Site(body: Body, b: Block, k: nat)
    requires b < |body| && k < |body[b]|
    ensures DefinedAt(body, b, k, body[b][k].id) && IsDefined(body, body[b][k].id)
  {
    assert DefinedAt(body, b, k, body[b][k].id);
  }

  /** Where the phi is not yet at hand, its operand is the other value. */
  lemma FirstOperand(g: Cfg, body: Body, b: Block, k: nat, o: Operand, q: Block, w: seq<Block>)
    requires WellFormed(g, body) && b < |body| && k < |body[b]| && OnlyOperand(body[b][k], o)
    requires g.PathTo(w, q) && g.Edge(q, b) && b !in w
    ensures FromPred(body[b][k].incoming, q) == o
    ensures q < |body| && OperandAvailable(g, body, q, |body[q]|, o)
  {
    hide WellFormed, PhisCover, UniqueSites, Reaches, IsDefined, DefinedAt, Strict;
    WellFormedParts(g, body);
    CoversOne(g, body, q, b, k);
    StrictMeans(g, body, b, k);
    var phi := body[b][k];
    OneOrOther(phi.incoming, q, Ref(phi.id), o);
    if FromPred(phi.incoming, q) == Ref(phi.id) {
      Site(body, b, k);
      var c: Block, j: nat :| DefinedAt(body, c, j, phi.id) && Reaches(g, body, c, j, q, |body[q]|);
      SameSite(body, c, j, b, k, phi.id);
      ReachesOnWalk(g, body, b, k, q, |body[q]|, w);
      assert false;
    }
  }

  lemma CoversOne(g: Cfg, body: Body, q: Block, b: Block, k: nat)
    requires PhisCover(g, body) && b < |body| && k < |body[b]| && body[b][k].Phi? && g.Edge(q, b)
    ensures ComesFrom(body[b][k].incoming, q)
  {
    hide ComesFrom;
  }

  lemma ReachesOnWalk(g: Cfg, body: Body, c: Block, j: nat, q: Block, k: nat, w: seq<Block>)
    requires Reaches(g, body, c, j, q, k) && g.PathTo(w, q)
    ensures c in w
  {
  }

  /** The other value is defined in a block that strictly dominates the phi's. */
  lemma SourceDominates(g: Cfg, body: Body, b: Block, k: nat, o: Operand, c: Block, j: nat)
    requires WellFormed(g, body) && b < |body| && k < |body[b]| && OnlyOperand(body[b][k], o)
    requires o.Ref? && DefinedAt(body, c, j, o.id)
    ensures g.StrictlyDominates(c, b)
  {
    hide WellFormed, OnlyOperand;
    WellFormedParts(g, body);
    forall w | g.PathTo(w, b)
      ensures c in w && c != b
    {
      OnWalk(g, body, b, k, o, c, j, w);
    }
    assert g.Reachable(b);
  }

  lemma OnWalk(g: Cfg, body: Body, b: Block, k: nat, o: Operand, c: Block, j: nat, w: seq<Block>)
    requires WellFormed(g, body) && b < |body| && k < |body[b]| && OnlyOperand(body[b][k], o)
    requires o.Ref? && DefinedAt(body, c, j, o.id) && g.PathTo(w, b)
    ensures c in w && c != b
  {
    hide WellFormed, OnlyOperand, UniqueSites, Reaches, DefinedAt, Strict, PhisCover;
    WellFormedParts(g, body);
    var i := FirstVisit(g, w, b);
    IsPhi(body[b][k], o);
    if i == 0 {
      assert false;
    }
    var q := w[i - 1];
    PathPrefix(g, w, b, i - 1);
    PathPrefix(g, w, b, i);
    assert w[..i - 1 + 1] == w[..i];
    assert w[..i + 1][..i] == w[..i] && w[..i + 1][i - 1] == q;
    FirstOperand(g, body, b, k, o, q, w[..i]);
    var d: Block, l: nat :| DefinedAt(body, d, l, o.id) && Reaches(g, body, d, l, q, |body[q]|);
    SameSite(body, d, l, c, j, o.id);
    ReachesOnWalk(g, body, d, l, q, |body[q]|, w[..i]);
  }

  lemma IsPhi(i: Ins, o: Operand)
    requires OnlyOperand(i, o)
    ensures i.Phi? && o != Ref(i.id)
  {
  }

  // ----- the two values on a path -----

  /** Where the phi is at hand, it has the other value. */
  ghost predicate Equal(g: Cfg, body: Body, x: nat, o: Operand, b: Block, k: nat, s: State) {
    Available(g, body, b, k, x) ==> Read(s, Ref(x)) == Read(s, o)
  }

  /** At the place where the other value is defined, the phi is not at hand. */
  lemma NotYet(g: Cfg, body: Body, b: Block, k: nat, o: Operand, c: Block, j: nat, w: seq<Block>)
    requires WellFormed(g, body) && b < |body| && k < |body[b]| && OnlyOperand(body[b][k], o)
    requires o.Ref? && DefinedAt(body, c, j, o.id) && g.PathTo(w, c)
    ensures forall l: nat :: !Available(g, body, c, l, body[b][k].id)
  {
    hide WellFormed, OnlyOperand, UniqueSites, Strict, PhisCover, Cfg.PathTo, Cfg.Dominates;
    WellFormedParts(g, body);
    SourceDominates(g, body, b, k, o, c, j);
    Site(body, b, k);
    var x := body[b][k].id;
    forall l: nat
      ensures !Available(g, body, c, l, x)
    {
      if Available(g, body, c, l, x) {
        var d: Block, i: nat :| DefinedAt(body, d, i, x) && Reaches(g, body, d, i, c, l);
        SameSite(body, d, i, b, k, x);
        NoMutualDominance(g, b, c, w);
      }
    }
  }

  lemma EqualStep(f: Machine, g: Cfg, body: Body, b: Block, k: nat, o: Operand, d: Block, l: nat, s: State,
                  w: seq<Block>)
    requires WellFormed(g, body) && b < |body| && k < |body[b]| && OnlyOperand(body[b][k], o)
    requires d < |body| && l < |body[d]| && g.PathTo(w, d) && Equal(g, body, body[b][k].id, o, d, l, s)
    ensures Equal(g, body, body[b][k].id, o, d, l + 1, Exec(f, body[d][l], s))
  {
    hide WellFormed, OnlyOperand, UniqueSites, Strict, PhisCover, Cfg.PathTo, Available, Exec;
    WellFormedParts(g, body);
    IsPhi(body[b][k], o);
    var x, i := body[b][k].id, body[d][l];
    if Available(g, body, d, l + 1, x) {
      AvailableStep(g, body, d, l, x);
      if i.id == x {
        SameSite(body, b, k, d, l, x);
      }
      ExecKeeps(f, i, s, x);
      if o.Ref? && o.id == i.id && i.Ins? {
        NotYet(g, body, b, k, o, d, l, w);
        assert false;
      }
      if o.Ref? {
        ExecKeeps(f, i, s, o.id);
      }
    }
  }

  lemma EqualEdge(f: Machine, g: Cfg, body: Body, b: Block, k: nat, o: Operand, start: map<nat, int>, path: seq<Block>,
                  d: Block)
    requires WellFormed(g, body) && b < |body| && k < |body[b]| && OnlyOperand(body[b][k], o)
    requires g.PathTo(path, d) && |path| > 1 && PathIn(body, path) && PathIn(body, path[..|path| - 1])
    requires var q := path[|path| - 2];
             q < |body| && Equal(g, body, body[b][k].id, o, q, |body[q]|, Run(f, body, start, path[..|path| - 1]))
    ensures Equal(g, body, body[b][k].id, o, d, 0, Enter(f, body, start, path))
  {
    hide WellFormed, OnlyOperand, UniqueSites, Strict, PhisCover, Cfg.PathTo, Available, Enter, Run, IsPhiOf;
    WellFormedParts(g, body);
    PathWalks(g, body, path, d);
    IsPhi(body[b][k], o);
    var x, q := body[b][k].id, path[|path| - 2];
    if Available(g, body, d, 0, x) {
      if o.Ref? {
        SourceKept(g, body, b, k, o, d, path);
        EnterKeeps(f, body, start, path, o.id);
      }
      if IsPhiOf(body, d, x) {
        PhiThere(body, b, k, d);
        EnterPhi(f, body, start, path, k);
        StrictMeans(g, body, b, k);
        CoversOne(g, body, q, b, k);
        Incoming(body[b][k], o, q);
      } else {
        AvailableEdge(g, body, q, d, x);
        EnterKeeps(f, body, start, path, x);
      }
    }
  }

  lemma Incoming(i: Ins, o: Operand, q: Block)
    requires OnlyOperand(i, o) && ComesFrom(i.incoming, q)
    ensures FromPred(i.incoming, q) == Ref(i.id) || FromPred(i.incoming, q) == o
  {
    OneOrOther(i.incoming, q, Ref(i.id), o);
  }

  lemma PhiThere(body: Body, b: Block, k: nat, d: Block)
    requires UniqueSites(body) && b < |body| && k < |body[b]| && IsPhiOf(body, d, body[b][k].id)
    ensures d == b
  {
    assert DefinedAt(body, b, k, body[b][k].id);
  }

  /** Entering a block where the phi is at hand does not assign the other value. */
  lemma SourceKept(g: Cfg, body: Body, b: Block, k: nat, o: Operand, d: Block, w: seq<Block>)
    requires WellFormed(g, body) && b < |body| && k < |body[b]| && OnlyOperand(body[b][k], o) && o.Ref?
    requires Available(g, body, d, 0, body[b][k].id) && g.PathTo(w, d)
    ensures !IsPhiOf(body, d, o.id)
  {
    hide WellFormed, OnlyOperand, Cfg.PathTo, Available;
    if IsPhiOf(body, d, o.id) {
      var j: nat :| DefinedAt(body, d, j, o.id) && body[d][j].Phi?;
      NotYet(g, body, b, k, o, d, j, w);
    }
  }

  lemma EqualStart(g: Cfg, body: Body, b: Block, k: nat, o: Operand, s: State)
    requires WellFormed(g, body) && b < |body| && k < |body[b]| && OnlyOperand(body[b][k], o)
    ensures Equal(g, body, body[b][k].id, o, ENTRY, 0, s)
  {
    hide Strict, UniqueSites, PhisCover, OnlyOperand, Available;
    WellFormedParts(g, body);
    Site(body, b, k);
    if Available(g, body, ENTRY, 0, body[b][k].id) {
      AvailableAtStart(g, body, body[b][k].id);
    }
  }

  /** On every path, the phi has the other value wherever it is at hand. */
  lemma {:induction false} PhiIsSource(f: Machine, g: Cfg, body: Body, b: Block, k: nat, o: Operand,
                                       start: map<nat, int>, path: seq<Block>, d: Block, l: nat)
    requires WellFormed(g, body) && |body| == g.Size() && b < |body| && k < |body[b]| && OnlyOperand(body[b][k], o)
    requires g.PathTo(path, d) && l <= |body[d]|
    ensures PathIn(body, path) && Last(path) == d
    ensures Equal(g, body, body[b][k].id, o, d, l, RunTo(f, body, start, path, l))
    decreases |path|, l
  {
    hide WellFormed, OnlyOperand, Equal, Exec, RunTo, Enter, Run;
    PathWalks(g, body, path, d);
    if l > 0 {
      PhiIsSource(f, g, body, b, k, o, start, path, d, l - 1);
      RunStep(f, body, start, path, l - 1);
      EqualStep(f, g, body, b, k, o, d, l - 1, RunTo(f, body, start, path, l - 1), path);
    } else {
      RunBegins(f, body, start, path);
      if |path| > 1 {
        var path0, q := path[..|path| - 1], path[|path| - 2];
        PhiIsSource(f, g, body, b, k, o, start, path0, q, |body[q]|);
        RunIsRunTo(f, body, start, path0);
        EqualEdge(f, g, body, b, k, o, start, path, d);
      } else {
        EqualStart(g, body, b, k, o, Enter(f, body, start, path));
      }
    }
  }

  // ----- replacing it -----

  /** Replacing the phi everywhere by its source keeps every run. */
  lemma PhiReplaced(f: Machine, g: Cfg, body: Body, b: Block, k: nat, o: Operand, start: map<nat, int>,
                    path: seq<Block>, d: Block)
    requires WellFormed(g, body) && b < |body| && k < |body[b]| && OnlyOperand(body[b][k], o) && g.PathTo(path, d)
    ensures TraceKept(f, body, Rewritten(body, map[body[b][k].id := o]), start, path)
  {
    hide WellFormed, OnlyOperand, Equal, RunTo, Run, Available, Strict;
    WellFormedParts(g, body);
    var sub := map[body[b][k].id := o];
    forall path: seq<Block>, d: Block, l: nat {:trigger SameAlong(f, g, body, sub, start, path, d, l)} |
      g.PathTo(path, d) && l <= |body[d]|
      ensures SameAlong(f, g, body, sub, start, path, d, l)
    {
      PhiIsSource(f, g, body, b, k, o, start, path, d, l);
      assert Equal(g, body, body[b][k].id, o, d, l, RunTo(f, body, start, path, l));
      EqualMeans(g, body, body[b][k].id, o, d, l, RunTo(f, body, start, path, l));
    }
    RewrittenRun(f, g, body, sub, start, path, d);
  }

  lemma EqualMeans(g: Cfg, body: Body, x: nat, o: Operand, b: Block, k: nat, s: State)
    requires Equal(g, body, x, o, b, k, s)
    ensures SameAt(g, body, map[x := o], b, k, s)
  {
    hide Available;
  }

  // ----- the code stays well formed -----

  lemma RewrittenSites(g: Cfg, body: Body, sub: Subst, b: Block, k: nat, x: nat)
    ensures IsDefined(Rewritten(body, sub), x) <==> IsDefined(body, x)
    ensures Available(g, Rewritten(body, sub), b, k, x) <==> Available(g, body, b, k, x)
  {
    hide Cfg.StrictlyDominates, RewrittenIns;
    var body': Body := Rewritten(body, sub);
    forall c: Block, j: nat
      ensures DefinedAt(body', c, j, x) <==> DefinedAt(body, c, j, x)
      ensures Reaches(g, body', c, j, b, k) <==> Reaches(g, body, c, j, b, k)
    {
    }
  }

  lemma RewrittenUnique(body: Body, sub: Subst)
    requires UniqueSites(body)
    ensures UniqueSites(Rewritten(body, sub))
  {
    hide RewrittenIns;
    var body': Body := Rewritten(body, sub);
    forall b: Block, k: nat, c: Block, j: nat, x | DefinedAt(body', b, k, x) && DefinedAt(body', c, j, x)
      ensures b == c && k == j
    {
      assert DefinedAt(body, b, k, x) && DefinedAt(body, c, j, x);
    }
  }

  /** Where the phi is at hand, so is its source. */
  lemma SourceAvailable(g: Cfg, body: Body, b: Block, k: nat, o: Operand, d: Block, l: nat)
    requires WellFormed(g, body) && b < |body| && k < |body[b]| && OnlyOperand(body[b][k], o) && d < |body|
    requires Available(g, body, d, l, body[b][k].id)
    ensures OperandAvailable(g, body, d, l, o)
  {
    hide WellFormed, OnlyOperand, UniqueSites, Cfg.Dominates, Strict, PhisCover, Cfg.PathTo;
    WellFormedParts(g, body);
    Site(body, b, k);
    var x := body[b][k].id;
    var b': Block, k': nat :| DefinedAt(body, b', k', x) && Reaches(g, body, b', k', d, l);
    SameSite(body, b, k, b', k', x);
    if o.Ref? && IsDefined(body, o.id) {
      var c: Block, j: nat :| DefinedAt(body, c, j, o.id);
      SourceDominates(g, body, b, k, o, c, j);
      assert g.Reachable(d);
      var w :| g.PathTo(w, d);
      ReachesTrans(g, body, c, j, b, k, d, l, w);
      assert Reaches(g, body, c, j, d, l);
    }
  }

  lemma RewrittenOperand(g: Cfg, body: Body, b: Block, k: nat, o: Operand, d: Block, l: nat, y: Operand)
    requires WellFormed(g, body) && b < |body| && k < |body[b]| && OnlyOperand(body[b][k], o) && d < |body|
    requires OperandAvailable(g, body, d, l, y)
    ensures var sub := map[body[b][k].id := o];
            OperandAvailable(g, Rewritten(body, sub), d, l, Instead(sub, y))
  {
    hide WellFormed, OnlyOperand, Available;
    var sub := map[body[b][k].id := o];
    if y == Ref(body[b][k].id) {
      SourceAvailable(g, body, b, k, o, d, l);
      if o.Ref? {
        RewrittenSites(g, body, sub, d, l, o.id);
      }
    } else if y.Ref? {
      RewrittenSites(g, body, sub, d, l, y.id);
    }
  }

  lemma StaysWellFormed(g: Cfg, body: Body, b: Block, k: nat, o: Operand)
    requires WellFormed(g, body) && b < |body| && k < |body[b]| && OnlyOperand(body[b][k], o)
    ensures WellFormed(g, Rewritten(body, map[body[b][k].id := o]))
  {
    hide OnlyOperand, UniqueSites, StrictAt, PhisCover, Strict;
    WellFormedParts(g, body);
    var sub := map[body[b][k].id := o];
    var body': Body := Rewritten(body, sub);
    RewrittenUnique(body, sub);
    RewrittenCovers(g, body, sub);
    forall d: Block, l: nat | d < |body'| && l < |body'[d]|
      ensures StrictAt(g, body', d, l)
    {
      StrictMeans(g, body, d, l);
      RewrittenStrict(g, body, b, k, o, d, l);
    }
    StrictIf(g, body');
  }

  lemma StrictIf(g: Cfg, body: Body)
    requires g.Valid() && |body| == g.Size() && UniqueSites(body)
    requires forall b: Block, k: nat :: b < |body| && k < |body[b]| ==> StrictAt(g, body, b, k)
    ensures Strict(g, body)
  {
    hide UniqueSites, StrictAt;
  }

  lemma RewrittenStrict(g: Cfg, body: Body, b: Block, k: nat, o: Operand, d: Block, l: nat)
    requires WellFormed(g, body) && b < |body| && k < |body[b]| && OnlyOperand(body[b][k], o)
    requires d < |body| && l < |body[d]| && StrictAt(g, body, d, l)
    ensures StrictAt(g, Rewritten(body, map[body[b][k].id := o]), d, l)
  {
    hide WellFormed, OnlyOperand, OperandAvailable, FromPred;
    var sub := map[body[b][k].id := o];
    var body': Body := Rewritten(body, sub);
    match body[d][l]
    case Ins(_, ops, _) =>
      forall i | 0 <= i < |ops|
        ensures OperandAvailable(g, body', d, l, RewrittenOps(ops, sub)[i])
      {
        RewrittenOperand(g, body, b, k, o, d, l, ops[i]);
      }
    case Phi(_, incoming) =>
      forall p: Block | p < |body'| && g.Edge(p, d)
        ensures OperandAvailable(g, body', p, |body'[p]|, FromPred(RewrittenIncoming(incoming, sub), p))
      {
        FromPredRewritten(incoming, sub, p);
        RewrittenOperand(g, body, b, k, o, p, |body[p]|, FromPred(incoming, p));
      }
  }

  lemma RewrittenCovers(g: Cfg, body: Body, sub: Subst)
    requires PhisCover(g, body)
    ensures PhisCover(g, Rewritten(body, sub))
  {
    hide Cfg.Edge;
    var body': Body := Rewritten(body, sub);
    forall p: Block, b: Block, k: nat | b < |body'| && k < |body'[b]| && body'[b][k].Phi? && g.Edge(p, b)
      ensures ComesFrom(body'[b][k].incoming, p)
    {
      assert ComesFrom(body[b][k].incoming, p);
      var n :| 0 <= n < |body[b][k].incoming| && body[b][k].incoming[n].1 == p;
      assert body'[b][k].incoming[n].1 == p;
    }
  }
}
