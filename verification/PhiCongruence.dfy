/** An operation that gives on every edge into its block what some other value gives there is equal to that value. */
module PhiCongruence {
  import opened Graphs
  import opened ValueNumbering
  import opened SsaRun
  import opened NumberedRuns
  import opened DuplicatePhis
  import PhiRuns

  // ----- operations that are congruent to a phi -----

  /** A value seen from the end of a predecessor: a phi of the block is what comes in from there. */
  type Incoming = (Val, Block) -> Val

  ghost predicate IsPhiVal(code: Body, vals: Vals, b: Block, o: Val) {
    exists j: nat :: b < |code| && b < |vals| && j < |code[b]| && j < |vals[b]| && code[b][j].Phi? && vals[b][j] == o
  }

  /** The incoming values are those of the code. */
  ghost predicate ComesIn(g: Cfg, code: Body, vals: Vals, bits: Bits, b: Block, come: Incoming) {
    b < |code| && b < |vals| && |code[b]| == |vals[b]| &&
    forall j: nat, p: Block {:trigger come(vals[b][j], p)} ::
      j < |code[b]| && code[b][j].Phi? && p < |code| && g.Edge(p, b) ==>
      Known(code, vals, come(vals[b][j], p)) &&
      OperandOf(bits, come(vals[b][j], p)) == FromPred(code[b][j].incoming, p)
  }

  ghost function Seen(code: Body, vals: Vals, b: Block, come: Incoming, o: Val, p: Block): Val {
    if IsPhiVal(code, vals, b, o) then come(o, p) else o
  }

  /** The operation on what its operands are at the end of `p`. */
  ghost function EdgeVal(code: Body, vals: Vals, b: Block, come: Incoming, v: Val, p: Block): (r: Val)
    requires v.Instr?
    ensures r.Instr? && r.op == v.op && |r.operands| == |v.operands|
  {
    v.(operands := seq(|v.operands|, n requires 0 <= n < |v.operands| => Seen(code, vals, b, come, v.operands[n], p)))
  }

  /** No operand is computed in the block itself: each is a phi of it, or stands in a block that strictly dominates it,
      or is no instruction. */
  ghost predicate OperandsFromAbove(g: Cfg, code: Body, vals: Vals, b: Block, v: Val)
    requires v.Instr?
  {
    forall n :: 0 <= n < |v.operands| && v.operands[n].Instr? ==>
      IsPhiVal(code, vals, b, v.operands[n]) || StandsOver(g, vals, b, v.operands[n])
  }

  ghost predicate StandsOver(g: Cfg, vals: Vals, b: Block, o: Val) {
    exists c: Block, i: nat :: g.StrictlyDominates(c, b) && c < |vals| && i < |vals[c]| && vals[c][i] == o
  }

  /** Code with its values, and an operation in it whose operands come from above. */
  ghost predicate Setup(f: Machine, g: Cfg, code: Body, vals: Vals, bits: Bits, call: Callee, come: Incoming, b: Block,
                        k: nat)
  {
    && Strict(g, code) && |code| == g.Size() && Matches(code, vals, bits) && Implements(f, vals, call)
    && ComesIn(g, code, vals, bits, b, come)
    && b < |vals| && k < |vals[b]| && vals[b][k].Instr? && vals[b][k].op != Fresh
    && OperandsFromAbove(g, code, vals, b, vals[b][k]) && b != ENTRY
  }

  lemma SetupParts(f: Machine, g: Cfg, code: Body, vals: Vals, bits: Bits, call: Callee, come: Incoming, b: Block,
                   k: nat)
    requires Setup(f, g, code, vals, bits, call, come, b, k)
    ensures Strict(g, code) && |code| == g.Size() && Matches(code, vals, bits) && Implements(f, vals, call)
    ensures UniqueSites(code) && g.Valid() && ComesIn(g, code, vals, bits, b, come) && b != ENTRY
    ensures b < |code| == |vals| && |code[b]| == |vals[b]| && k < |code[b]|
    ensures vals[b][k].Instr? && vals[b][k].op != Fresh && code[b][k].Ins? && code[b][k].id == vals[b][k].id
    ensures OperandsFromAbove(g, code, vals, b, vals[b][k])
  {
    hide Strict, Matches, Implements, ComesIn, OperandsFromAbove;
    StrictShape(g, code);
    MatchesShape(code, vals, bits);
    MatchesMeans(code, vals, bits, b, k);
  }

  /** What a block does not compute is, all through the block, as when it began. */
  lemma {:induction false} BlockKeeps(f: Machine, code: Body, start: map<nat, int>, path: seq<Block>, l: nat, x: nat)
    requires PathIn(code, path) && l <= |code[Last(path)]|
    requires forall i: nat :: i < l && code[Last(path)][i].Ins? ==> code[Last(path)][i].id != x
    ensures Read(RunTo(f, code, start, path, l), Ref(x)) == Read(Enter(f, code, start, path), Ref(x))
    decreases l
  {
    hide RunTo, Enter, Exec;
    if l == 0 {
      RunBegins(f, code, start, path);
    } else {
      BlockKeeps(f, code, start, path, l - 1, x);
      RunStep(f, code, start, path, l - 1);
      ExecKeeps(f, code[Last(path)][l - 1], RunTo(f, code, start, path, l - 1), x);
    }
  }

  /** From the end of the predecessor on, too, if it is no phi of the block. */
  lemma BlockKeepsAll(f: Machine, code: Body, start: map<nat, int>, path: seq<Block>, l: nat, x: nat)
    requires PathIn(code, path) && |path| > 1 && l <= |code[Last(path)]|
    requires forall i: nat :: i < |code[Last(path)]| ==> code[Last(path)][i].id != x
    ensures PathIn(code, path[..|path| - 1])
    ensures Read(RunTo(f, code, start, path, l), Ref(x)) == Read(Run(f, code, start, path[..|path| - 1]), Ref(x))
  {
    hide RunTo, Enter, Run;
    BlockKeeps(f, code, start, path, l, x);
    assert !IsPhiOf(code, Last(path), x);
    EnterKeeps(f, code, start, path, x);
  }

  lemma NotInBlock(code: Body, c: Block, i: nat, b: Block)
    requires UniqueSites(code) && c < |code| && i < |code[c]| && c != b && b < |code|
    ensures forall l: nat :: l < |code[b]| ==> code[b][l].id != code[c][i].id
  {
    forall l: nat | l < |code[b]|
      ensures code[b][l].id != code[c][i].id
    {
      if code[b][l].id == code[c][i].id {
        OneSite(code, b, l, c, i);
      }
    }
  }

  // ----- the operands, seen from the end of the predecessor -----

  /** A path into the block, and the end of the block before. */
  ghost predicate Arrived(f: Machine, g: Cfg, code: Body, vals: Vals, bits: Bits, call: Callee, start: map<nat, int>,
                          path: seq<Block>, b: Block)
  {
    && |code| == g.Size() && g.PathTo(path, b) && |path| > 1 && PathIn(code, path) && PathIn(code, path[..|path| - 1])
    && Last(path) == b
    && var p := path[|path| - 2];
       p < |code| && g.Edge(p, b) &&
       AllMean(g, code, vals, bits, call, p, |code[p]|, Run(f, code, start, path[..|path| - 1]))
  }

  lemma ArrivesAt(f: Machine, g: Cfg, code: Body, vals: Vals, bits: Bits, call: Callee, start: map<nat, int>,
                  path: seq<Block>, b: Block)
    requires Strict(g, code) && |code| == g.Size() && Matches(code, vals, bits) && Implements(f, vals, call)
    requires g.PathTo(path, b) && b != ENTRY
    ensures Arrived(f, g, code, vals, bits, call, start, path, b)
  {
    hide Strict, Matches, Implements, AllMean, Run, RunTo;
    PathWalks(g, code, path, b);
    var path0, p := path[..|path| - 1], path[|path| - 2];
    ValuesMean(f, g, code, vals, bits, call, start, path0, p, |code[p]|);
    RunIsRunTo(f, code, start, path0);
  }

  /** A value with a definition that reaches the end of the predecessor. */
  lemma MeansAtEnd(f: Machine, g: Cfg, code: Body, vals: Vals, bits: Bits, call: Callee, start: map<nat, int>,
                   path: seq<Block>, b: Block, t: Val)
    requires Strict(g, code) && Matches(code, vals, bits) && Arrived(f, g, code, vals, bits, call, start, path, b)
    requires Known(code, vals, t)
    requires OperandAvailable(g, code, path[|path| - 2], |code[path[|path| - 2]]|, OperandOf(bits, t))
    ensures MeansAt(bits, call, Run(f, code, start, path[..|path| - 1]), t)
  {
    hide Strict, Matches, Run, Reaches, MeansAt, Cfg.PathTo, UniqueSites;
    var s, p := Run(f, code, start, path[..|path| - 1]), path[|path| - 2];
    if t.Instr? {
      StrictShape(g, code);
      MatchesShape(code, vals, bits);
      var c: Block, i: nat :| c < |vals| && i < |vals[c]| && vals[c][i] == t;
      MatchesMeans(code, vals, bits, c, i);
      SiteReaches(g, code, c, i, p, |code[p]|);
    } else {
      GivenMeans(bits, call, s, t);
    }
  }

  /** A phi of the block is what came in. */
  lemma PhiNow(f: Machine, g: Cfg, code: Body, vals: Vals, bits: Bits, call: Callee, come: Incoming,
               start: map<nat, int>, path: seq<Block>, b: Block, j: nat, l: nat)
    requires Strict(g, code) && Matches(code, vals, bits) && ComesIn(g, code, vals, bits, b, come)
    requires Arrived(f, g, code, vals, bits, call, start, path, b) && j < |code[b]| && code[b][j].Phi? && l <= |code[b]|
    ensures b < |vals| && j < |vals[b]| && vals[b][j].Instr? && vals[b][j].id == code[b][j].id
    ensures Read(RunTo(f, code, start, path, l), Ref(vals[b][j].id)) ==
            Meaning(WorldOf(bits, call, Run(f, code, start, path[..|path| - 1])), come(vals[b][j], path[|path| - 2]))
  {
    hide Strict, Matches, Run, RunTo, Enter, MeansAt, Cfg.PathTo, UniqueSites, AllMean, Available;
    var p := path[|path| - 2];
    StrictShape(g, code);
    MatchesShape(code, vals, bits);
    MatchesMeans(code, vals, bits, b, j);
    var t := come(vals[b][j], p);
    assert Known(code, vals, t) && OperandOf(bits, t) == FromPred(code[b][j].incoming, p);
    forall i: nat | i < l && code[b][i].Ins?
      ensures code[b][i].id != code[b][j].id
    {
      if code[b][i].id == code[b][j].id {
        OneSite(code, b, i, b, j);
      }
    }
    BlockKeeps(f, code, start, path, l, code[b][j].id);
    EnterPhi(f, code, start, path, j);
    StrictMeans(g, code, b, j);
    MeansAtEnd(f, g, code, vals, bits, call, start, path, b, t);
    assert MeansAt(bits, call, Run(f, code, start, path[..|path| - 1]), t);
    MeansRead(bits, call, Run(f, code, start, path[..|path| - 1]), t);
  }

  lemma MeansRead(bits: Bits, call: Callee, s: State, v: Val)
    requires MeansAt(bits, call, s, v)
    ensures Read(s, OperandOf(bits, v)) == Meaning(WorldOf(bits, call, s), v)
  {
  }

  /** What stands over the block is as it was. */
  lemma OverNow(f: Machine, g: Cfg, code: Body, vals: Vals, bits: Bits, call: Callee, start: map<nat, int>,
                path: seq<Block>, b: Block, o: Val, l: nat)
    requires Strict(g, code) && Matches(code, vals, bits) && Arrived(f, g, code, vals, bits, call, start, path, b)
    requires StandsOver(g, vals, b, o) && l <= |code[b]|
    ensures o.Instr? && Read(RunTo(f, code, start, path, l), Ref(o.id)) ==
                        Meaning(WorldOf(bits, call, Run(f, code, start, path[..|path| - 1])), o)
  {
    hide Strict, Matches, Run, RunTo, Enter, MeansAt, Cfg.PathTo, UniqueSites, AllMean, Cfg.Dominates;
    var s, p := Run(f, code, start, path[..|path| - 1]), path[|path| - 2];
    var c: Block, i: nat :| g.StrictlyDominates(c, b) && c < |vals| && i < |vals[c]| && vals[c][i] == o;
    StrictShape(g, code);
    MatchesShape(code, vals, bits);
    MatchesMeans(code, vals, bits, c, i);
    ReachesPred(g, code, vals, bits, call, p, b, s, c, i);
    MeansRead(bits, call, s, o);
    NotInBlock(code, c, i, b);
    BlockKeepsAll(f, code, start, path, l, o.id);
  }

  /** Anything from outside is as it was. */
  lemma GivenNow(f: Machine, g: Cfg, code: Body, vals: Vals, bits: Bits, call: Callee, start: map<nat, int>,
                 path: seq<Block>, b: Block, o: Val, l: nat)
    requires Arrived(f, g, code, vals, bits, call, start, path, b)
    requires !o.Instr? && (o.Leaf? ==> !IsDefined(code, o.id)) && l <= |code[b]|
    ensures Read(RunTo(f, code, start, path, l), OperandOf(bits, o)) ==
            Meaning(WorldOf(bits, call, Run(f, code, start, path[..|path| - 1])), o)
  {
    hide Run, RunTo, Enter, MeansAt, Cfg.PathTo, AllMean;
    var s := Run(f, code, start, path[..|path| - 1]);
    GivenMeans(bits, call, s, o);
    MeansRead(bits, call, s, o);
    if o.Leaf? {
      forall i: nat | i < |code[b]|
        ensures code[b][i].id != o.id
      {
        assert DefinedAt(code, b, i, code[b][i].id);
      }
      BlockKeepsAll(f, code, start, path, l, o.id);
    }
  }

  /** Every operand is now what it was, or what came in, at the end of the predecessor. */
  lemma OperandNow(f: Machine, g: Cfg, code: Body, vals: Vals, bits: Bits, call: Callee, come: Incoming,
                   start: map<nat, int>, path: seq<Block>, b: Block, k: nat, n: nat, l: nat)
    requires Setup(f, g, code, vals, bits, call, come, b, k) && Arrived(f, g, code, vals, bits, call, start, path, b)
    requires n < |vals[b][k].operands| && l <= |code[b]|
    ensures Read(RunTo(f, code, start, path, l), OperandOf(bits, vals[b][k].operands[n])) ==
            Meaning(WorldOf(bits, call, Run(f, code, start, path[..|path| - 1])),
                    Seen(code, vals, b, come, vals[b][k].operands[n], path[|path| - 2]))
  {
    hide Setup, Arrived, Strict, Matches, Implements, Run, RunTo, StandsOver, ComesIn, Meaning;
    SetupParts(f, g, code, vals, bits, call, come, b, k);
    ArrivedShape(f, g, code, vals, bits, call, start, path, b);
    MatchesMeans(code, vals, bits, b, k);
    var o := vals[b][k].operands[n];
    if IsPhiVal(code, vals, b, o) {
      var j: nat :| j < |code[b]| && j < |vals[b]| && code[b][j].Phi? && vals[b][j] == o;
      PhiNow(f, g, code, vals, bits, call, come, start, path, b, j, l);
    } else if o.Instr? {
      OverNow(f, g, code, vals, bits, call, start, path, b, o, l);
    } else {
      assert Known(code, vals, o);
      GivenNow(f, g, code, vals, bits, call, start, path, b, o, l);
    }
  }

  lemma ArrivedShape(f: Machine, g: Cfg, code: Body, vals: Vals, bits: Bits, call: Callee, start: map<nat, int>,
                     path: seq<Block>, b: Block)
    requires Arrived(f, g, code, vals, bits, call, start, path, b)
    ensures |code| == g.Size() && g.PathTo(path, b) && |path| > 1 && PathIn(code, path)
    ensures PathIn(code, path[..|path| - 1]) && Last(path) == b
    ensures path[|path| - 2] < |code| && g.Edge(path[|path| - 2], b)
  {
    hide AllMean, Cfg.PathTo, Run;
  }

  /** The operation, once computed, is the operation on what its operands were at the end of the predecessor. */
  lemma ResultNow(f: Machine, g: Cfg, code: Body, vals: Vals, bits: Bits, call: Callee, come: Incoming,
                  start: map<nat, int>, path: seq<Block>, b: Block, k: nat)
    requires Setup(f, g, code, vals, bits, call, come, b, k) && Arrived(f, g, code, vals, bits, call, start, path, b)
    ensures b < |code| && k < |code[b]| && PathIn(code, path) && PathIn(code, path[..|path| - 1]) && Last(path) == b
    ensures |path| > 1
    ensures Read(Exec(f, code[b][k], RunTo(f, code, start, path, k)), Ref(vals[b][k].id)) ==
            Meaning(WorldOf(bits, call, Run(f, code, start, path[..|path| - 1])),
                    EdgeVal(code, vals, b, come, vals[b][k], path[|path| - 2]))
  {
    hide Setup, Arrived, Strict, Matches, Run, RunTo, ComesIn, Apply, OperandsFromAbove, Seen;
    SetupParts(f, g, code, vals, bits, call, come, b, k);
    ArrivedShape(f, g, code, vals, bits, call, start, path, b);
    MatchesMeans(code, vals, bits, b, k);
    var s := RunTo(f, code, start, path, k);
    var w := WorldOf(bits, call, Run(f, code, start, path[..|path| - 1]));
    var v, e := vals[b][k], EdgeVal(code, vals, b, come, vals[b][k], path[|path| - 2]);
    var args := ReadAll(s, code[b][k].ops);
    forall n | 0 <= n < |v.operands|
      ensures args[n] == Meanings(w, e, |e.operands|)[n]
    {
      MeaningsAt(w, e, |e.operands|, n);
      OperandNow(f, g, code, vals, bits, call, come, start, path, b, k, n, k);
    }
    assert args == Meanings(w, e, |e.operands|);
    ApplyCall(w, World(u => 0, call), v.op, args);
  }

  // ----- what may stand for the operation -----

  /** On every edge into the block, the operation gives what `r` is there: a constant, a phi of the block by what comes
      in with it, or a value that comes before the operation. */
  ghost predicate Congruent(g: Cfg, code: Body, vals: Vals, come: Incoming, b: Block, k: nat, r: Val)
    requires b < |vals| && k < |vals[b]| && vals[b][k].Instr?
  {
    if IsPhiVal(code, vals, b, r) && r.Instr? then
      forall p: Block {:trigger come(r, p)} :: p < |code| && g.Edge(p, b) ==>
        SameValue(EdgeVal(code, vals, b, come, vals[b][k], p), come(r, p))
    else
      && (r.IsConstant() || (r.Instr? && Survivors.ComesBefore(g, vals, b, k, r)))
      && forall p: Block :: p < |code| && g.Edge(p, b) ==> SameValue(EdgeVal(code, vals, b, come, vals[b][k], p), r)
  }

  lemma SameMeaning(w: World, a: Val, b: Val)
    requires SameValue(a, b)
    ensures Meaning(w, a) == Meaning(w, b)
  {
    hide Meaning;
  }

  /** A predecessor that control reaches without the block. */
  lemma EntryEdge(g: Cfg, b: Block, path: seq<Block>) returns (p: Block, w: seq<Block>)
    requires g.PathTo(path, b) && b != ENTRY
    ensures g.Edge(p, b) && g.PathTo(w, p) && b !in w && p < g.Size()
  {
    var i := PhiRuns.FirstVisit(g, path, b);
    var q := path[..i + 1];
    assert |q| > 1;
    p, w := q[|q| - 2], q[..|q| - 1];
    assert w == path[..i];
  }

  /** What is at hand at the end of such a predecessor is not changed on the way through the block. */
  lemma SameFromEntry(f: Machine, g: Cfg, code: Body, vals: Vals, bits: Bits, call: Callee, start: map<nat, int>,
                      path: seq<Block>, b: Block, l: nat, p0: Block, w: seq<Block>)
    requires UniqueSites(code) && Arrived(f, g, code, vals, bits, call, start, path, b) && l <= |code[b]|
    requires g.PathTo(w, p0) && b !in w && p0 < |code|
    ensures SameBelow(g, code, p0, |code[p0]|, Run(f, code, start, path[..|path| - 1]), RunTo(f, code, start, path, l))
  {
    hide Arrived, UniqueSites, Run, RunTo, Read, Cfg.PathTo, IsDefined;
    ArrivedShape(f, g, code, vals, bits, call, start, path, b);
    var s, s' := Run(f, code, start, path[..|path| - 1]), RunTo(f, code, start, path, l);
    forall x | !IsDefined(code, x)
      ensures Read(s, Ref(x)) == Read(s', Ref(x))
    {
      Undefined(code, b, x);
      BlockKeepsAll(f, code, start, path, l, x);
    }
    forall d: Block, i: nat | d < |code| && i < |code[d]| && Reaches(g, code, d, i, p0, |code[p0]|)
      ensures Read(s, Ref(code[d][i].id)) == Read(s', Ref(code[d][i].id))
    {
      OnWay(g, code, d, i, p0, w);
      NotInBlock(code, d, i, b);
      BlockKeepsAll(f, code, start, path, l, code[d][i].id);
    }
  }

  lemma Undefined(code: Body, b: Block, x: nat)
    requires !IsDefined(code, x) && b < |code|
    ensures forall l: nat :: l < |code[b]| ==> code[b][l].id != x
  {
    forall l: nat | l < |code[b]|
      ensures code[b][l].id != x
    {
      assert DefinedAt(code, b, l, code[b][l].id);
    }
  }

  lemma OnWay(g: Cfg, code: Body, d: Block, i: nat, p: Block, w: seq<Block>)
    requires p < |code| && Reaches(g, code, d, i, p, |code[p]|) && g.PathTo(w, p)
    ensures d in w
  {
  }

  /** A graph over what is at hand there keeps its meaning. */
  lemma MeaningFromEntry(f: Machine, g: Cfg, code: Body, vals: Vals, bits: Bits, call: Callee, t: Val, p0: Block,
                         w: seq<Block>, s: State, s': State)
    requires Strict(g, code) && Matches(code, vals, bits) && Known(code, vals, t) && g.PathTo(w, p0) && p0 < |code|
    requires OperandAvailable(g, code, p0, |code[p0]|, OperandOf(bits, t))
    requires SameBelow(g, code, p0, |code[p0]|, s, s')
    ensures Meaning(WorldOf(bits, call, s), t) == Meaning(WorldOf(bits, call, s'), t)
  {
    hide Strict, Matches, SameBelow, Reaches, Meaning, UniqueSites, Cfg.PathTo, Available;
    StrictShape(g, code);
    MatchesShape(code, vals, bits);
    if t.Instr? {
      var d: Block, i: nat :| d < |vals| && i < |vals[d]| && vals[d][i] == t;
      MatchesMeans(code, vals, bits, d, i);
      SiteReaches(g, code, d, i, p0, |code[p0]|);
      if t.op == Fresh {
        ReadSame(g, code, p0, |code[p0]|, s, s', d, i);
        GivenMeans(bits, call, s, t);
        GivenMeans(bits, call, s', t);
      } else {
        var q := SitePath(g, code, d, i, p0, |code[p0]|, w);
        SameBelowTrans(g, code, d, i, p0, |code[p0]|, s, s', w);
        MeaningStays(g, code, vals, bits, call, d, i, s, s', q);
      }
    } else {
      OutsideSame(g, code, p0, |code[p0]|, s, s', bits, t);
      GivenMeans(bits, call, s, t);
      GivenMeans(bits, call, s', t);
    }
  }

  /** What an operand is at the end of a predecessor is at hand there. */
  lemma SeenAvailable(f: Machine, g: Cfg, code: Body, vals: Vals, bits: Bits, call: Callee, come: Incoming, b: Block,
                      k: nat, n: nat, p: Block)
    requires Setup(f, g, code, vals, bits, call, come, b, k) && n < |vals[b][k].operands|
    requires p < |code| && g.Edge(p, b)
    ensures var t := Seen(code, vals, b, come, vals[b][k].operands[n], p);
            Known(code, vals, t) && OperandAvailable(g, code, p, |code[p]|, OperandOf(bits, t))
  {
    hide Setup, Strict, Matches, Implements, Cfg.Dominates, UniqueSites;
    SetupParts(f, g, code, vals, bits, call, come, b, k);
    MatchesMeans(code, vals, bits, b, k);
    var o := vals[b][k].operands[n];
    if IsPhiVal(code, vals, b, o) {
      var j: nat :| j < |code[b]| && j < |vals[b]| && code[b][j].Phi? && vals[b][j] == o;
      StrictMeans(g, code, b, j);
      assert OperandOf(bits, come(vals[b][j], p)) == FromPred(code[b][j].incoming, p);
    } else if o.Instr? {
      var c: Block, i: nat :| g.StrictlyDominates(c, b) && c < |vals| && i < |vals[c]| && vals[c][i] == o;
      MatchesShape(code, vals, bits);
      MatchesMeans(code, vals, bits, c, i);
      StrictDominatorOfPred(g, c, p, b);
      assert DefinedAt(code, c, i, o.id);
      assert Reaches(g, code, c, i, p, |code[p]|);
    } else {
      assert Known(code, vals, o);
    }
  }

  /** The operation seen from such a predecessor keeps its meaning on the way through the block. */
  lemma EdgeValStays(f: Machine, g: Cfg, code: Body, vals: Vals, bits: Bits, call: Callee, come: Incoming,
                     start: map<nat, int>, path: seq<Block>, b: Block, k: nat, l: nat, p0: Block, w: seq<Block>)
    requires Setup(f, g, code, vals, bits, call, come, b, k) && Arrived(f, g, code, vals, bits, call, start, path, b)
    requires l <= |code[b]| && g.Edge(p0, b) && g.PathTo(w, p0) && b !in w && p0 < |code|
    ensures var e := EdgeVal(code, vals, b, come, vals[b][k], p0);
            Meaning(WorldOf(bits, call, Run(f, code, start, path[..|path| - 1])), e) ==
            Meaning(WorldOf(bits, call, RunTo(f, code, start, path, l)), e)
  {
    hide Setup, Arrived, Strict, Matches, Implements, Run, RunTo, Meaning, SameBelow, Cfg.PathTo, UniqueSites,
         Available, ComesIn, OperandsFromAbove, Known, Seen;
    SetupParts(f, g, code, vals, bits, call, come, b, k);
    ArrivedShape(f, g, code, vals, bits, call, start, path, b);
    var s, s' := Run(f, code, start, path[..|path| - 1]), RunTo(f, code, start, path, l);
    var e := EdgeVal(code, vals, b, come, vals[b][k], p0);
    SameFromEntry(f, g, code, vals, bits, call, start, path, b, l, p0, w);
    forall n | 0 <= n < |e.operands|
      ensures Meaning(WorldOf(bits, call, s), e.operands[n]) == Meaning(WorldOf(bits, call, s'), e.operands[n])
    {
      SeenAvailable(f, g, code, vals, bits, call, come, b, k, n, p0);
      MeaningFromEntry(f, g, code, vals, bits, call, e.operands[n], p0, w, s, s');
    }
    ApplySame(WorldOf(bits, call, s), WorldOf(bits, call, s'), e);
  }

  /** When the operation is computed, `r` has the same value. */
  lemma EqualNow(f: Machine, g: Cfg, code: Body, vals: Vals, bits: Bits, call: Callee, come: Incoming,
                 start: map<nat, int>, path: seq<Block>, b: Block, k: nat, r: Val)
    requires Setup(f, g, code, vals, bits, call, come, b, k) && Arrived(f, g, code, vals, bits, call, start, path, b)
    requires Congruent(g, code, vals, come, b, k, r) && k <= |code[b]|
    ensures Read(RunTo(f, code, start, path, k), OperandOf(bits, r)) ==
            Meaning(WorldOf(bits, call, Run(f, code, start, path[..|path| - 1])),
                    EdgeVal(code, vals, b, come, vals[b][k], path[|path| - 2]))
  {
    hide Setup, Arrived, Strict, Matches, Implements, Run, RunTo, Meaning, Cfg.PathTo, UniqueSites, ComesIn,
         OperandsFromAbove, SameValue, Survivors.ComesBefore, EdgeVal;
    SetupParts(f, g, code, vals, bits, call, come, b, k);
    ArrivedShape(f, g, code, vals, bits, call, start, path, b);
    var p, w := path[|path| - 2], WorldOf(bits, call, Run(f, code, start, path[..|path| - 1]));
    var e := EdgeVal(code, vals, b, come, vals[b][k], p);
    if IsPhiVal(code, vals, b, r) && r.Instr? {
      var j: nat :| j < |code[b]| && j < |vals[b]| && code[b][j].Phi? && vals[b][j] == r;
      PhiNow(f, g, code, vals, bits, call, come, start, path, b, j, k);
      SameMeaning(w, e, come(r, p));
    } else if r.IsConstant() {
      SameMeaning(w, e, r);
      GivenNow(f, g, code, vals, bits, call, start, path, b, r, k);
    } else {
      SameMeaning(w, e, r);
      BeforeNow(f, g, code, vals, bits, call, come, start, path, b, k, r);
    }
  }

  lemma BeforeNow(f: Machine, g: Cfg, code: Body, vals: Vals, bits: Bits, call: Callee, come: Incoming,
                  start: map<nat, int>, path: seq<Block>, b: Block, k: nat, r: Val)
    requires Setup(f, g, code, vals, bits, call, come, b, k) && Arrived(f, g, code, vals, bits, call, start, path, b)
    requires r.Instr? && Survivors.ComesBefore(g, vals, b, k, r) && k <= |code[b]|
    requires forall p: Block :: p < |code| && g.Edge(p, b) ==> SameValue(EdgeVal(code, vals, b, come, vals[b][k], p), r)
    ensures Read(RunTo(f, code, start, path, k), Ref(r.id)) ==
            Meaning(WorldOf(bits, call, Run(f, code, start, path[..|path| - 1])), r)
  {
    hide Setup, Arrived, Strict, Matches, Implements, Run, RunTo, Meaning, Cfg.PathTo, UniqueSites, ComesIn,
         OperandsFromAbove, SameValue, EdgeVal, Cfg.Dominates, AllMean, MeansAt;
    SetupParts(f, g, code, vals, bits, call, come, b, k);
    ArrivedShape(f, g, code, vals, bits, call, start, path, b);
    if StandsOver(g, vals, b, r) {
      OverNow(f, g, code, vals, bits, call, start, path, b, r, k);
    } else {
      var i := EarlierInBlock(g, vals, b, k, r);
      var s, s' := Run(f, code, start, path[..|path| - 1]), RunTo(f, code, start, path, k);
      ValuesMean(f, g, code, vals, bits, call, start, path, b, k);
      assert Reaches(g, code, b, i, b, k);
      HereMeans(g, code, vals, bits, call, b, k, i, s');
      MeansRead(bits, call, s', r);
      var p0, w := EntryEdge(g, b, path);
      var e := EdgeVal(code, vals, b, come, vals[b][k], p0);
      EdgeValStays(f, g, code, vals, bits, call, come, start, path, b, k, k, p0, w);
      SameMeaning(WorldOf(bits, call, s'), e, r);
      SameMeaning(WorldOf(bits, call, s), e, r);
    }
  }

  lemma EarlierInBlock(g: Cfg, vals: Vals, b: Block, k: nat, r: Val) returns (i: nat)
    requires Survivors.ComesBefore(g, vals, b, k, r) && !StandsOver(g, vals, b, r)
    ensures b < |vals| && i < k && i < |vals[b]| && vals[b][i] == r
  {
    hide Cfg.StrictlyDominates;
    i :| i < k && i < |vals[b]| && vals[b][i] == r;
  }

  lemma HereMeans(g: Cfg, code: Body, vals: Vals, bits: Bits, call: Callee, b: Block, k: nat, i: nat, s: State)
    requires AllMean(g, code, vals, bits, call, b, k, s) && b < |vals| && i < |vals[b]| && Reaches(g, code, b, i, b, k)
    ensures MeansAt(bits, call, s, vals[b][i])
  {
    hide MeansAt, Reaches;
  }

  // ----- wherever the operation is at hand -----

  /** The place of `r` and that of the operation: `r` is a constant, or the code's value at a place that is no later. */
  ghost predicate PlacedBefore(g: Cfg, code: Body, vals: Vals, b: Block, k: nat, r: Val, c: Block, i: nat) {
    r.Instr? && c < |vals| && c < |code| && i < |vals[c]| && i < |code[c]| &&
    vals[c][i] == r && code[c][i].id == r.id && (g.StrictlyDominates(c, b) || (c == b && (i < k || code[c][i].Phi?)))
  }

  lemma PlaceOf(f: Machine, g: Cfg, code: Body, vals: Vals, bits: Bits, call: Callee, come: Incoming, b: Block, k: nat,
                r: Val) returns (c: Block, i: nat)
    requires Setup(f, g, code, vals, bits, call, come, b, k) && Congruent(g, code, vals, come, b, k, r)
    requires !r.IsConstant()
    ensures PlacedBefore(g, code, vals, b, k, r, c, i)
  {
    hide Setup, Strict, Matches, Implements, UniqueSites, ComesIn, OperandsFromAbove, EdgeVal, SameValue,
         Cfg.StrictlyDominates;
    SetupParts(f, g, code, vals, bits, call, come, b, k);
    MatchesShape(code, vals, bits);
    if IsPhiVal(code, vals, b, r) && r.Instr? {
      c := b;
      i :| i < |code[b]| && i < |vals[b]| && code[b][i].Phi? && vals[b][i] == r;
    } else if StandsOver(g, vals, b, r) {
      c, i :| g.StrictlyDominates(c, b) && c < |vals| && i < |vals[c]| && vals[c][i] == r;
    } else {
      c := b;
      i := EarlierInBlock(g, vals, b, k, r);
    }
    MatchesMeans(code, vals, bits, c, i);
  }

  /** Nothing that runs while the operation is at hand assigns `r`. */
  lemma NotReassigned(g: Cfg, code: Body, vals: Vals, b: Block, k: nat, r: Val, c: Block, i: nat, d: Block, l: nat,
                      w: seq<Block>)
    requires UniqueSites(code) && PlacedBefore(g, code, vals, b, k, r, c, i) && g.PathTo(w, d)
    requires b < |code| && k < |code[b]| && code[b][k].Ins? && d < |code| && l < |code[d]|
    requires Available(g, code, d, l, code[b][k].id)
    ensures code[d][l].Phi? || code[d][l].id != r.id
  {
    hide UniqueSites, Cfg.PathTo, Cfg.StrictlyDominates;
    if code[d][l].Ins? && code[d][l].id == r.id {
      OneSite(code, c, i, d, l);
      SiteReaches(g, code, b, k, d, l);
      assert Reaches(g, code, c, i, b, k);
      NoCircularReach(g, code, b, k, d, l, w);
    }
  }

  lemma NotReentered(g: Cfg, code: Body, vals: Vals, b: Block, k: nat, r: Val, c: Block, i: nat, d: Block,
                     w: seq<Block>)
    requires UniqueSites(code) && PlacedBefore(g, code, vals, b, k, r, c, i) && g.PathTo(w, d)
    requires b < |code| && k < |code[b]| && code[b][k].Ins? && d < |code|
    requires Available(g, code, d, 0, code[b][k].id)
    ensures !IsPhiOf(code, d, r.id)
  {
    hide UniqueSites, Cfg.PathTo, Cfg.Dominates;
    if IsPhiOf(code, d, r.id) {
      var l: nat :| DefinedAt(code, d, l, r.id) && code[d][l].Phi?;
      OneSite(code, c, i, d, l);
      SiteReaches(g, code, b, k, d, 0);
      assert g.StrictlyDominates(b, d);
      NoMutualDominance(g, b, d, w);
    }
  }

  lemma CongruentStep(f: Machine, g: Cfg, code: Body, vals: Vals, bits: Bits, call: Callee, come: Incoming,
                      start: map<nat, int>, path: seq<Block>, b: Block, k: nat, r: Val, d: Block, l: nat)
    requires Setup(f, g, code, vals, bits, call, come, b, k) && Congruent(g, code, vals, come, b, k, r)
    requires |code| == g.Size() && g.PathTo(path, d) && l < |code[d]| && PathIn(code, path) && Last(path) == d
    requires EqualAt(g, code, vals[b][k].id, OperandOf(bits, r), d, l, RunTo(f, code, start, path, l))
    ensures EqualAt(g, code, vals[b][k].id, OperandOf(bits, r), d, l + 1,
                    Exec(f, code[d][l], RunTo(f, code, start, path, l)))
  {
    hide Setup, Strict, Matches, Implements, UniqueSites, ComesIn, OperandsFromAbove, EdgeVal, Congruent, Run, RunTo,
         Exec, Available, Arrived, PlacedBefore, Read, Meaning;
    SetupParts(f, g, code, vals, bits, call, come, b, k);
    var s, x := RunTo(f, code, start, path, l), vals[b][k].id;
    if Available(g, code, d, l + 1, x) {
      if d == b && l == k {
        ArrivesAt(f, g, code, vals, bits, call, start, path, b);
        ResultNow(f, g, code, vals, bits, call, come, start, path, b, k);
        EqualNow(f, g, code, vals, bits, call, come, start, path, b, k, r);
        OtherKept(f, g, code, vals, bits, call, come, b, k, r, s);
      } else {
        AvailableStep(g, code, d, l, x);
        NotThisOne(code, b, k, d, l);
        ExecKeeps(f, code[d][l], s, x);
        if !r.IsConstant() {
          var c, i := PlaceOf(f, g, code, vals, bits, call, come, b, k, r);
          NotReassigned(g, code, vals, b, k, r, c, i, d, l, path);
          PlacedIsInstr(g, code, vals, b, k, r, c, i);
          ExecKeeps(f, code[d][l], s, r.id);
        }
        ConstantKept(bits, r, s, Exec(f, code[d][l], s));
      }
    }
  }

  lemma PlacedIsInstr(g: Cfg, code: Body, vals: Vals, b: Block, k: nat, r: Val, c: Block, i: nat)
    requires PlacedBefore(g, code, vals, b, k, r, c, i)
    ensures r.Instr?
  {
  }

  lemma ConstantKept(bits: Bits, r: Val, s: State, s': State)
    ensures r.IsConstant() ==> Read(s, OperandOf(bits, r)) == Read(s', OperandOf(bits, r))
  {
  }

  lemma NotThisOne(code: Body, b: Block, k: nat, d: Block, l: nat)
    requires UniqueSites(code) && b < |code| && k < |code[b]| && d < |code| && l < |code[d]| && !(d == b && l == k)
    ensures code[d][l].id != code[b][k].id
  {
    hide UniqueSites;
    if code[d][l].id == code[b][k].id {
      OneSite(code, d, l, b, k);
    }
  }

  lemma OtherKept(f: Machine, g: Cfg, code: Body, vals: Vals, bits: Bits, call: Callee, come: Incoming, b: Block,
                  k: nat, r: Val, s: State)
    requires Setup(f, g, code, vals, bits, call, come, b, k) && Congruent(g, code, vals, come, b, k, r)
    ensures b < |code| && k < |code[b]|
    ensures Read(Exec(f, code[b][k], s), OperandOf(bits, r)) == Read(s, OperandOf(bits, r))
  {
    hide Setup, Strict, Matches, Implements, UniqueSites, ComesIn, OperandsFromAbove, EdgeVal, Congruent, Exec, Read,
         Cfg.Dominates;
    SetupParts(f, g, code, vals, bits, call, come, b, k);
    if r.IsConstant() {
      ConstantKept(bits, r, s, Exec(f, code[b][k], s));
    } else {
      var c, i := PlaceOf(f, g, code, vals, bits, call, come, b, k, r);
      NotThisOne(code, b, k, c, i);
      ExecKeeps(f, code[b][k], s, r.id);
    }
  }

  lemma CongruentEdge(f: Machine, g: Cfg, code: Body, vals: Vals, bits: Bits, call: Callee, come: Incoming,
                      start: map<nat, int>, path: seq<Block>, b: Block, k: nat, r: Val, d: Block)
    requires Setup(f, g, code, vals, bits, call, come, b, k) && Congruent(g, code, vals, come, b, k, r)
    requires |code| == g.Size() && g.PathTo(path, d) && |path| > 1 && PathIn(code, path)
    requires PathIn(code, path[..|path| - 1]) && Last(path) == d
    requires var q := path[|path| - 2];
             q < |code| && EqualAt(g, code, vals[b][k].id, OperandOf(bits, r), q, |code[q]|,
                                   Run(f, code, start, path[..|path| - 1]))
    ensures EqualAt(g, code, vals[b][k].id, OperandOf(bits, r), d, 0, Enter(f, code, start, path))
  {
    hide Setup, Strict, Matches, Implements, UniqueSites, ComesIn, OperandsFromAbove, EdgeVal, Congruent, Run, Enter,
         Available, PlacedBefore, Read, IsPhiOf, Cfg.PathTo;
    SetupParts(f, g, code, vals, bits, call, come, b, k);
    PathWalks(g, code, path, d);
    var x, q := vals[b][k].id, path[|path| - 2];
    if Available(g, code, d, 0, x) {
      NoPhiHere(code, d, b, k);
      AvailableEdge(g, code, q, d, x);
      EnterKeeps(f, code, start, path, x);
      if !r.IsConstant() {
        var c, i := PlaceOf(f, g, code, vals, bits, call, come, b, k, r);
        NotReentered(g, code, vals, b, k, r, c, i, d, path);
        PlacedIsInstr(g, code, vals, b, k, r, c, i);
        EnterKeeps(f, code, start, path, r.id);
      }
      ConstantKept(bits, r, Run(f, code, start, path[..|path| - 1]), Enter(f, code, start, path));
    }
  }

  lemma CongruentStart(f: Machine, g: Cfg, code: Body, vals: Vals, bits: Bits, call: Callee, come: Incoming, b: Block,
                       k: nat, o: Operand, s: State)
    requires Setup(f, g, code, vals, bits, call, come, b, k)
    ensures EqualAt(g, code, vals[b][k].id, o, ENTRY, 0, s)
  {
    hide Setup, Strict, Matches, Implements, UniqueSites, ComesIn, OperandsFromAbove, Available, IsPhiOf;
    SetupParts(f, g, code, vals, bits, call, come, b, k);
    assert DefinedAt(code, b, k, vals[b][k].id);
    if Available(g, code, ENTRY, 0, vals[b][k].id) {
      AvailableAtStart(g, code, vals[b][k].id);
      NoPhiHere(code, ENTRY, b, k);
    }
  }

  /** On every path, the operation is equal to what it is congruent to, wherever it is at hand. */
  lemma {:induction false} CongruentEqual(f: Machine, g: Cfg, code: Body, vals: Vals, bits: Bits, call: Callee,
                                          come: Incoming, start: map<nat, int>, b: Block, k: nat, r: Val,
                                          path: seq<Block>, d: Block, l: nat)
    requires Setup(f, g, code, vals, bits, call, come, b, k) && Congruent(g, code, vals, come, b, k, r)
    requires |code| == g.Size() && g.PathTo(path, d) && l <= |code[d]|
    ensures PathIn(code, path) && Last(path) == d
    ensures EqualAt(g, code, vals[b][k].id, OperandOf(bits, r), d, l, RunTo(f, code, start, path, l))
    decreases |path|, l
  {
    hide Setup, Congruent, EqualAt, Exec, RunTo, Enter, Run, Strict, Matches, Implements, ComesIn, UniqueSites,
         OperandsFromAbove;
    SetupParts(f, g, code, vals, bits, call, come, b, k);
    PathWalks(g, code, path, d);
    if l > 0 {
      CongruentEqual(f, g, code, vals, bits, call, come, start, b, k, r, path, d, l - 1);
      RunStep(f, code, start, path, l - 1);
      CongruentStep(f, g, code, vals, bits, call, come, start, path, b, k, r, d, l - 1);
    } else {
      RunBegins(f, code, start, path);
      if |path| > 1 {
        var path0, q := path[..|path| - 1], path[|path| - 2];
        CongruentEqual(f, g, code, vals, bits, call, come, start, b, k, r, path0, q, |code[q]|);
        RunIsRunTo(f, code, start, path0);
        CongruentEdge(f, g, code, vals, bits, call, come, start, path, b, k, r, d);
      } else {
        CongruentStart(f, g, code, vals, bits, call, come, b, k, OperandOf(bits, r), Enter(f, code, start, path));
      }
    }
  }

  lemma CongruentOnPaths(f: Machine, g: Cfg, code: Body, vals: Vals, bits: Bits, call: Callee, come: Incoming,
                         start: map<nat, int>, b: Block, k: nat, r: Val)
    requires Setup(f, g, code, vals, bits, call, come, b, k) && Congruent(g, code, vals, come, b, k, r)
    requires |code| == g.Size()
    ensures EqualOnPaths(f, g, code, vals[b][k].id, OperandOf(bits, r), start)
  {
    hide Setup, Congruent, EqualAt, RunTo, Strict, Matches, Implements, ComesIn, UniqueSites, OperandsFromAbove;
    SetupParts(f, g, code, vals, bits, call, come, b, k);
    forall path: seq<Block>, d: Block, l: nat
      {:trigger EqualAlong(f, g, code, vals[b][k].id, OperandOf(bits, r), start, path, d, l)} |
      g.PathTo(path, d) && l <= |code[d]|
      ensures EqualAlong(f, g, code, vals[b][k].id, OperandOf(bits, r), start, path, d, l)
    {
      CongruentEqual(f, g, code, vals, bits, call, come, start, b, k, r, path, d, l);
    }
  }

  // ----- all of them together -----

  /** What value numbering replaces is equal on every path as well. */
  lemma NumberedOnPaths(f: Machine, g: Cfg, code: Body, vals: Vals, bits: Bits, call: Callee, replace: map<Val, Val>,
                        start: map<nat, int>, x: nat)
    requires Strict(g, code) && |code| == g.Size() && Matches(code, vals, bits) && Implements(f, vals, call)
    requires Replacing(g, vals, replace) && x in SubstOf(replace, bits)
    ensures EqualOnPaths(f, g, code, x, SubstOf(replace, bits)[x], start)
  {
    hide Strict, Matches, Implements, Replacing, SubstOf, Run, AllMean, Available, RunTo;
    var sub := SubstOf(replace, bits);
    forall path: seq<Block>, b: Block, k: nat {:trigger EqualAlong(f, g, code, x, sub[x], start, path, b, k)} |
      g.PathTo(path, b) && k <= |code[b]|
      ensures EqualAlong(f, g, code, x, sub[x], start, path, b, k)
    {
      PathWalks(g, code, path, b);
      ValuesMean(f, g, code, vals, bits, call, start, path, b, k);
      if Available(g, code, b, k, x) {
        SubstSame(f, g, code, vals, bits, call, replace, path, b, k, RunTo(f, code, start, path, k), x);
      }
    }
  }

  /** An operation that a congruent value replaces. */
  ghost predicate FromCongruence(f: Machine, g: Cfg, code: Body, vals: Vals, bits: Bits, call: Callee, come: Incoming,
                                 x: nat, o: Operand)
  {
    exists b: Block, k: nat, r: Val :: IsCongruence(f, g, code, vals, bits, call, come, x, o, b, k, r)
  }

  ghost predicate IsCongruence(f: Machine, g: Cfg, code: Body, vals: Vals, bits: Bits, call: Callee, come: Incoming,
                               x: nat, o: Operand, b: Block, k: nat, r: Val)
  {
    Setup(f, g, code, vals, bits, call, come, b, k) && Congruent(g, code, vals, come, b, k, r) && vals[b][k].id == x &&
    OperandOf(bits, r) == o
  }

  /** Equal numbers, duplicate phis and congruent operations: replacing all that any of them finds changes no run. */
  lemma AllReplacementsKeepRuns(f: Machine, g: Cfg, code: Body, vals: Vals, bits: Bits, call: Callee, come: Incoming,
                                replace: map<Val, Val>, sub: Subst, start: map<nat, int>, path: seq<Block>, b: Block)
    requires Strict(g, code) && |code| == g.Size() && Matches(code, vals, bits) && Implements(f, vals, call)
    requires Replacing(g, vals, replace) && (forall i: nat :: i < |code[ENTRY]| ==> code[ENTRY][i].Ins?)
    requires forall x :: x in sub ==>
               || (x in SubstOf(replace, bits) && sub[x] == SubstOf(replace, bits)[x])
               || FromDuplicates(code, x, sub[x])
               || FromCongruence(f, g, code, vals, bits, call, come, x, sub[x])
    requires g.PathTo(path, b)
    ensures TraceKept(f, code, Rewritten(code, sub), start, path)
  {
    hide Strict, Matches, Implements, Replacing, SubstOf, EqualOnPaths, Cfg.PathTo, SamePhi, Setup, Congruent;
    forall x | x in sub
      ensures EqualOnPaths(f, g, code, x, sub[x], start)
    {
      if x in SubstOf(replace, bits) && sub[x] == SubstOf(replace, bits)[x] {
        NumberedOnPaths(f, g, code, vals, bits, call, replace, start, x);
      } else if FromDuplicates(code, x, sub[x]) {
        var c: Block, k: nat, j: nat :|
          c < |code| && k < |code[c]| && j < |code[c]| && SamePhi(code[c][k], code[c][j]) && code[c][k].id == x &&
          sub[x] == Ref(code[c][j].id);
        DuplicateOnPaths(f, g, code, c, k, j, start);
      } else {
        var c: Block, k: nat, r: Val :| IsCongruence(f, g, code, vals, bits, call, come, x, sub[x], c, k, r);
        CongruentOnPaths(f, g, code, vals, bits, call, come, start, c, k, r);
      }
    }
    AllTogether(f, g, code, sub, start, path, b);
  }
}
