/** Value numbering and runs: where a value is at hand, it has the meaning of its graph, so replacing it by one of the
    same meaning changes no run. */
module NumberedRuns {
  import opened Graphs
  import opened ValueNumbering
  import opened SsaRun
  import LeaderTables
  import Survivors

  type Vals = LeaderTables.Body

  /** What constants that are not integers stand for. */
  type Bits = nat -> int

  type Callee = seq<int> -> int

  function OperandOf(bits: Bits, v: Val): Operand {
    match v
    case ConstInt(c, _) => Other(c)
    case OtherConst(id) => Other(bits(id))
    case Leaf(id) => Ref(id)
    case Instr(id, _, _, _) => Ref(id)
  }

  function OperandsOf(bits: Bits, vs: seq<Val>): (r: seq<Operand>)
    ensures |r| == |vs|
  {
    seq(|vs|, i requires 0 <= i < |vs| => OperandOf(bits, vs[i]))
  }

  // ----- code and the graphs of its values -----

  ghost predicate StandsIn(vals: Vals, v: Val) {
    exists c: Block, j: nat :: c < |vals| && j < |vals[c]| && vals[c][j] == v
  }

  /** An operand is an instruction of the code, or a constant, or comes from outside. */
  ghost predicate Known(code: Body, vals: Vals, o: Val) {
    match o
    case Instr(_, _, _, _) => StandsIn(vals, o)
    case Leaf(id) => !IsDefined(code, id)
    case _ => true
  }

  /** The graph at a place describes the instruction there; only what always gets a number of its own is not looked
      into. */
  ghost predicate MatchesAt(code: Body, vals: Vals, bits: Bits, b: Block, k: nat)
    requires b < |code| && b < |vals| && k < |code[b]| && k < |vals[b]|
  {
    var v, i := vals[b][k], code[b][k];
    && v.Instr? && i.id == v.id
    && (v.op != Fresh ==>
          && i.Ins? && i.ops == OperandsOf(bits, v.operands)
          && forall n :: 0 <= n < |v.operands| ==> Known(code, vals, v.operands[n]))
  }

  ghost predicate Matches(code: Body, vals: Vals, bits: Bits) {
    && |code| == |vals| && (forall b: Block :: b < |code| ==> |code[b]| == |vals[b]|)
    && (forall b: Block, k: nat :: b < |code| && k < |code[b]| ==> MatchesAt(code, vals, bits, b, k))
    && (forall b: Block, j: nat, k: nat :: b < |code| && j < k < |code[b]| && code[b][k].Phi? ==> code[b][j].Phi?)
  }

  lemma MatchesMeans(code: Body, vals: Vals, bits: Bits, b: Block, k: nat)
    requires Matches(code, vals, bits) && b < |code| && k < |code[b]|
    ensures b < |vals| && k < |vals[b]| && MatchesAt(code, vals, bits, b, k)
  {
    hide MatchesAt;
  }

  lemma MatchesShape(code: Body, vals: Vals, bits: Bits)
    requires Matches(code, vals, bits)
    ensures |code| == |vals| && forall b: Block :: b < |code| ==> |code[b]| == |vals[b]|
    ensures forall b: Block, j: nat, k: nat :: b < |code| && j < k < |code[b]| && code[b][k].Phi? ==> code[b][j].Phi?
  {
    hide MatchesAt;
  }

  /** The machine computes the operations that are looked into. */
  ghost predicate Implements(f: Machine, vals: Vals, call: Callee) {
    forall b: Block, k: nat, xs: seq<int>, tr: seq<Event> {:trigger f(vals[b][k].id, xs, tr)} ::
      b < |vals| && k < |vals[b]| && vals[b][k].Instr? && vals[b][k].op != Fresh ==>
      f(vals[b][k].id, xs, tr) == Apply(World(u => 0, call), vals[b][k].op, xs)
  }

  /** The surroundings as a state of the run supplies them. */
  function WorldOf(bits: Bits, call: Callee, s: State): World {
    World((v: Val) => Read(s, OperandOf(bits, v)), call)
  }

  /** What is read is what the graph means. */
  predicate MeansAt(bits: Bits, call: Callee, s: State, v: Val) {
    Read(s, OperandOf(bits, v)) == Meaning(WorldOf(bits, call, s), v)
  }

  lemma GivenMeans(bits: Bits, call: Callee, s: State, v: Val)
    requires v.Instr? ==> v.op == Fresh
    ensures MeansAt(bits, call, s, v)
  {
  }

  /** Every value at hand before instruction `k` of `b` is what its graph means. */
  ghost predicate AllMean(g: Cfg, code: Body, vals: Vals, bits: Bits, call: Callee, b: Block, k: nat, s: State) {
    forall c: Block, j: nat {:trigger Reaches(g, code, c, j, b, k)} ::
      c < |vals| && j < |vals[c]| && Reaches(g, code, c, j, b, k) ==> MeansAt(bits, call, s, vals[c][j])
  }

  // ----- what a graph depends on -----

  /** Everything that could be an operand at instruction `j` of `c` is in both states the same. */
  ghost predicate SameBelow(g: Cfg, code: Body, c: Block, j: nat, s: State, s': State) {
    && (forall x :: !IsDefined(code, x) ==> Read(s, Ref(x)) == Read(s', Ref(x)))
    && (forall d: Block, i: nat {:trigger Reaches(g, code, d, i, c, j)} ::
          d < |code| && i < |code[d]| && Reaches(g, code, d, i, c, j) ==>
          Read(s, Ref(code[d][i].id)) == Read(s', Ref(code[d][i].id)))
  }

  lemma ApplySame(w: World, w': World, v: Val)
    requires v.Instr? && v.op != Fresh && w.call == w'.call
    requires forall n :: 0 <= n < |v.operands| ==> Meaning(w, v.operands[n]) == Meaning(w', v.operands[n])
    ensures Meaning(w, v) == Meaning(w', v)
  {
    var xs, ys := Meanings(w, v, |v.operands|), Meanings(w', v, |v.operands|);
    forall n | 0 <= n < |v.operands|
      ensures xs[n] == ys[n]
    {
      MeaningsAt(w, v, |v.operands|, n);
      MeaningsAt(w', v, |v.operands|, n);
    }
    assert xs == ys;
  }

  /** Where an operand that is an instruction stands: its definition reaches the use. */
  lemma OperandSite(g: Cfg, code: Body, vals: Vals, bits: Bits, c: Block, j: nat, n: nat) returns (d: Block, i: nat)
    requires Strict(g, code) && Matches(code, vals, bits) && c < |vals| && j < |vals[c]| && c < |code| && j < |code[c]|
    requires var v := vals[c][j]; v.Instr? && v.op != Fresh && n < |v.operands| && v.operands[n].Instr?
    ensures d < |vals| && i < |vals[d]| && d < |code| && i < |code[d]| && vals[d][i] == vals[c][j].operands[n]
    ensures Reaches(g, code, d, i, c, j) && code[d][i].id == vals[d][i].id
  {
    hide Strict, Matches, Cfg.StrictlyDominates;
    var o := vals[c][j].operands[n];
    MatchesMeans(code, vals, bits, c, j);
    MatchesShape(code, vals, bits);
    StrictMeans(g, code, c, j);
    StrictShape(g, code);
    assert Known(code, vals, o);
    d, i :| d < |vals| && i < |vals[d]| && vals[d][i] == o;
    MatchesMeans(code, vals, bits, d, i);
    assert DefinedAt(code, d, i, o.id);
    assert OperandAvailable(g, code, c, j, code[c][j].ops[n]);
  }

  lemma {:induction false} MeaningStays(g: Cfg, code: Body, vals: Vals, bits: Bits, call: Callee, c: Block, j: nat,
                                        s: State, s': State, p: seq<Block>)
    requires Strict(g, code) && Matches(code, vals, bits) && c < |vals| && j < |vals[c]| && g.PathTo(p, c)
    requires vals[c][j].Instr? && vals[c][j].op != Fresh && SameBelow(g, code, c, j, s, s')
    ensures Meaning(WorldOf(bits, call, s), vals[c][j]) == Meaning(WorldOf(bits, call, s'), vals[c][j])
    decreases vals[c][j]
  {
    hide Strict, Matches, Meaning, SameBelow, Reaches;
    var v := vals[c][j];
    var w, w' := WorldOf(bits, call, s), WorldOf(bits, call, s');
    MatchesShape(code, vals, bits);
    MatchesMeans(code, vals, bits, c, j);
    forall n | 0 <= n < |v.operands|
      ensures Meaning(w, v.operands[n]) == Meaning(w', v.operands[n])
    {
      var o := v.operands[n];
      if o.Instr? {
        var d, i := OperandSite(g, code, vals, bits, c, j, n);
        if o.op == Fresh {
          ReadSame(g, code, c, j, s, s', d, i);
          GivenMeans(bits, call, s, o);
          GivenMeans(bits, call, s', o);
        } else {
          MatchesMeans(code, vals, bits, d, i);
          var q := SitePath(g, code, d, i, c, j, p);
          SameBelowTrans(g, code, d, i, c, j, s, s', p);
          MeaningStays(g, code, vals, bits, call, d, i, s, s', q);
        }
      } else {
        assert Known(code, vals, o);
        OutsideSame(g, code, c, j, s, s', bits, o);
        GivenMeans(bits, call, s, o);
        GivenMeans(bits, call, s', o);
      }
    }
    ApplySame(w, w', v);
  }

  lemma ReadSame(g: Cfg, code: Body, c: Block, j: nat, s: State, s': State, d: Block, i: nat)
    requires SameBelow(g, code, c, j, s, s') && d < |code| && i < |code[d]| && Reaches(g, code, d, i, c, j)
    ensures Read(s, Ref(code[d][i].id)) == Read(s', Ref(code[d][i].id))
  {
    hide Reaches, IsDefined, Read;
  }

  lemma OutsideSame(g: Cfg, code: Body, c: Block, j: nat, s: State, s': State, bits: Bits, o: Val)
    requires SameBelow(g, code, c, j, s, s') && !o.Instr? && (o.Leaf? ==> !IsDefined(code, o.id))
    ensures Read(s, OperandOf(bits, o)) == Read(s', OperandOf(bits, o))
  {
    hide Reaches, IsDefined;
  }

  lemma SitePath(g: Cfg, code: Body, d: Block, i: nat, c: Block, j: nat, p: seq<Block>) returns (q: seq<Block>)
    requires Reaches(g, code, d, i, c, j) && g.PathTo(p, c)
    ensures g.PathTo(q, d)
  {
    hide Cfg.PathTo;
    if d == c {
      q := p;
    } else {
      DominatedReachable(g, d, c, p);
      q :| g.PathTo(q, d);
    }
  }

  lemma SameBelowTrans(g: Cfg, code: Body, d: Block, i: nat, c: Block, j: nat, s: State, s': State, p: seq<Block>)
    requires SameBelow(g, code, c, j, s, s') && d < |code| && i < |code[d]| && code[d][i].Ins?
    requires Reaches(g, code, d, i, c, j) && g.PathTo(p, c)
    ensures SameBelow(g, code, d, i, s, s')
  {
    hide Reaches, IsDefined, Read, Cfg.PathTo;
    forall e: Block, l: nat | e < |code| && l < |code[e]| && Reaches(g, code, e, l, d, i)
      ensures Read(s, Ref(code[e][l].id)) == Read(s', Ref(code[e][l].id))
    {
      ReachesTrans(g, code, e, l, d, i, c, j, p);
    }
  }

  // ----- one instruction -----

  lemma SameBelowStep(f: Machine, g: Cfg, code: Body, c: Block, j: nat, b: Block, k: nat, s: State, p: seq<Block>)
    requires UniqueSites(code) && b < |code| && k < |code[b]| && g.PathTo(p, b)
    requires c < |code| && j < |code[c]| && code[c][j].Ins? && Reaches(g, code, c, j, b, k + 1)
    ensures SameBelow(g, code, c, j, s, Exec(f, code[b][k], s))
  {
    hide UniqueSites, Cfg.PathTo, Cfg.StrictlyDominates;
    var s' := Exec(f, code[b][k], s);
    forall x | !IsDefined(code, x)
      ensures Read(s, Ref(x)) == Read(s', Ref(x))
    {
      assert DefinedAt(code, b, k, code[b][k].id);
      ExecKeeps(f, code[b][k], s, x);
    }
    forall d: Block, i: nat | d < |code| && i < |code[d]| && Reaches(g, code, d, i, c, j)
      ensures Read(s, Ref(code[d][i].id)) == Read(s', Ref(code[d][i].id))
    {
      if code[d][i].id == code[b][k].id && code[b][k].Ins? {
        OneSite(code, d, i, b, k);
        NotItself(g, code, c, j, b, k, p);
        assert false;
      }
      ExecKeeps(f, code[b][k], s, code[d][i].id);
    }
  }

  /** An instruction is no operand of what it reaches. */
  lemma NotItself(g: Cfg, code: Body, c: Block, j: nat, b: Block, k: nat, p: seq<Block>)
    requires b < |code| && k < |code[b]| && code[b][k].Ins? && c < |code| && j < |code[c]| && code[c][j].Ins?
    requires g.PathTo(p, b) && Reaches(g, code, c, j, b, k + 1)
    ensures !Reaches(g, code, b, k, c, j)
  {
    hide Cfg.PathTo, Cfg.StrictlyDominates;
    if Reaches(g, code, b, k, c, j) {
      if c == b && j == k {
        NotStrictlySelf(g, b);
      } else {
        NoCircularReach(g, code, c, j, b, k, p);
      }
    }
  }

  lemma NotStrictlySelf(g: Cfg, b: Block)
    ensures !g.StrictlyDominates(b, b)
  {
  }

  /** The instruction just run has the meaning of its graph. */
  lemma ResultMeans(f: Machine, g: Cfg, code: Body, vals: Vals, bits: Bits, call: Callee, b: Block, k: nat, s: State)
    requires Strict(g, code) && Matches(code, vals, bits) && Implements(f, vals, call)
    requires b < |code| && b < |vals| && k < |code[b]| && k < |vals[b]| && vals[b][k].Instr? && vals[b][k].op != Fresh
    requires AllMean(g, code, vals, bits, call, b, k, s)
    ensures code[b][k].Ins? && code[b][k].id == vals[b][k].id
    ensures Read(Exec(f, code[b][k], s), Ref(vals[b][k].id)) == Meaning(WorldOf(bits, call, s), vals[b][k])
  {
    hide Strict, Matches, AllMean, Reaches, Apply;
    var v, w := vals[b][k], WorldOf(bits, call, s);
    MatchesMeans(code, vals, bits, b, k);
    var args := ReadAll(s, code[b][k].ops);
    forall n | 0 <= n < |v.operands|
      ensures args[n] == Meanings(w, v, |v.operands|)[n]
    {
      MeaningsAt(w, v, |v.operands|, n);
      OperandMeans(g, code, vals, bits, call, b, k, n, s);
    }
    assert args == Meanings(w, v, |v.operands|);
    ApplyCall(w, World(u => 0, call), v.op, args);
  }

  lemma OperandMeans(g: Cfg, code: Body, vals: Vals, bits: Bits, call: Callee, b: Block, k: nat, n: nat, s: State)
    requires Strict(g, code) && Matches(code, vals, bits) && AllMean(g, code, vals, bits, call, b, k, s)
    requires b < |code| && b < |vals| && k < |code[b]| && k < |vals[b]| && vals[b][k].Instr? && vals[b][k].op != Fresh
    requires n < |vals[b][k].operands|
    ensures MeansAt(bits, call, s, vals[b][k].operands[n])
  {
    hide Strict, Matches, Reaches, MeansAt;
    if vals[b][k].operands[n].Instr? {
      var d, i := OperandSite(g, code, vals, bits, b, k, n);
    } else {
      GivenMeans(bits, call, s, vals[b][k].operands[n]);
    }
  }

  lemma ApplyCall(w: World, w': World, op: Op, xs: seq<int>)
    requires w.call == w'.call
    ensures Apply(w, op, xs) == Apply(w', op, xs)
  {
  }

  lemma StepMeans(f: Machine, g: Cfg, code: Body, vals: Vals, bits: Bits, call: Callee, b: Block, k: nat, s: State,
                  p: seq<Block>)
    requires Strict(g, code) && Matches(code, vals, bits) && Implements(f, vals, call) && g.PathTo(p, b)
    requires b < |code| && k < |code[b]| && AllMean(g, code, vals, bits, call, b, k, s)
    ensures AllMean(g, code, vals, bits, call, b, k + 1, Exec(f, code[b][k], s))
  {
    hide Strict, Matches, Implements, AllMean, MeansAt, UniqueSites, Cfg.PathTo, Exec, Reaches;
    var s' := Exec(f, code[b][k], s);
    MatchesShape(code, vals, bits);
    forall c: Block, j: nat | c < |vals| && j < |vals[c]| && Reaches(g, code, c, j, b, k + 1)
      ensures MeansAt(bits, call, s', vals[c][j])
    {
      OneMeans(f, g, code, vals, bits, call, b, k, s, p, c, j);
    }
    AllMeanIf(g, code, vals, bits, call, b, k + 1, s');
  }

  lemma AllMeanIf(g: Cfg, code: Body, vals: Vals, bits: Bits, call: Callee, b: Block, k: nat, s: State)
    requires forall c: Block, j: nat {:trigger Reaches(g, code, c, j, b, k)} ::
               c < |vals| && j < |vals[c]| && Reaches(g, code, c, j, b, k) ==> MeansAt(bits, call, s, vals[c][j])
    ensures AllMean(g, code, vals, bits, call, b, k, s)
  {
    hide MeansAt, Reaches;
  }

  lemma OneMeans(f: Machine, g: Cfg, code: Body, vals: Vals, bits: Bits, call: Callee, b: Block, k: nat, s: State,
                 p: seq<Block>, c: Block, j: nat)
    requires Strict(g, code) && Matches(code, vals, bits) && Implements(f, vals, call) && g.PathTo(p, b)
    requires b < |code| && k < |code[b]| && AllMean(g, code, vals, bits, call, b, k, s)
    requires c < |vals| && j < |vals[c]| && Reaches(g, code, c, j, b, k + 1)
    ensures MeansAt(bits, call, Exec(f, code[b][k], s), vals[c][j])
  {
    hide Strict, Matches, Implements, AllMean, UniqueSites, Cfg.PathTo, Exec, Reaches, Meaning, Read;
    var s', v := Exec(f, code[b][k], s), vals[c][j];
    MatchesShape(code, vals, bits);
    MatchesMeans(code, vals, bits, c, j);
    StrictShape(g, code);
    if v.op == Fresh {
      GivenMeans(bits, call, s', v);
    } else {
      SameBelowStep(f, g, code, c, j, b, k, s, p);
      var q := SitePath(g, code, c, j, b, k + 1, p);
      MeaningStays(g, code, vals, bits, call, c, j, s, s', q);
      if c == b && j == k {
        ResultMeans(f, g, code, vals, bits, call, b, k, s);
      } else {
        EarlierMeans(g, code, vals, bits, call, b, k, s, c, j);
        if code[b][k].Ins? && code[b][k].id == v.id {
          OneSite(code, c, j, b, k);
        }
        ExecKeeps(f, code[b][k], s, v.id);
      }
    }
  }

  lemma EarlierMeans(g: Cfg, code: Body, vals: Vals, bits: Bits, call: Callee, b: Block, k: nat, s: State, c: Block,
                     j: nat)
    requires AllMean(g, code, vals, bits, call, b, k, s) && c < |vals| && j < |vals[c]|
    requires Reaches(g, code, c, j, b, k + 1) && (c, j) != (b, k)
    ensures MeansAt(bits, call, s, vals[c][j])
  {
    hide MeansAt, Cfg.StrictlyDominates;
    assert Reaches(g, code, c, j, b, k);
  }

  // ----- crossing an edge -----

  lemma EdgeMeans(f: Machine, g: Cfg, code: Body, vals: Vals, bits: Bits, call: Callee, start: map<nat, int>,
                  path: seq<Block>, b: Block)
    requires Strict(g, code) && |code| == g.Size() && Matches(code, vals, bits) && g.PathTo(path, b) && |path| > 1
    requires PathIn(code, path) && PathIn(code, path[..|path| - 1])
    requires var p := path[|path| - 2];
             p < |code| && AllMean(g, code, vals, bits, call, p, |code[p]|, Run(f, code, start, path[..|path| - 1]))
    ensures AllMean(g, code, vals, bits, call, b, 0, Enter(f, code, start, path))
  {
    hide Strict, Matches, AllMean, MeansAt, UniqueSites, Cfg.PathTo, Enter, Run, Reaches;
    MatchesShape(code, vals, bits);
    forall c: Block, j: nat | c < |vals| && j < |vals[c]| && Reaches(g, code, c, j, b, 0)
      ensures MeansAt(bits, call, Enter(f, code, start, path), vals[c][j])
    {
      EnteredMeans(f, g, code, vals, bits, call, start, path, b, c, j);
    }
    AllMeanIf(g, code, vals, bits, call, b, 0, Enter(f, code, start, path));
  }

  lemma EnteredMeans(f: Machine, g: Cfg, code: Body, vals: Vals, bits: Bits, call: Callee, start: map<nat, int>,
                     path: seq<Block>, b: Block, c: Block, j: nat)
    requires Strict(g, code) && |code| == g.Size() && Matches(code, vals, bits) && g.PathTo(path, b) && |path| > 1
    requires PathIn(code, path) && PathIn(code, path[..|path| - 1])
    requires var p := path[|path| - 2];
             p < |code| && AllMean(g, code, vals, bits, call, p, |code[p]|, Run(f, code, start, path[..|path| - 1]))
    requires c < |vals| && j < |vals[c]| && Reaches(g, code, c, j, b, 0)
    ensures MeansAt(bits, call, Enter(f, code, start, path), vals[c][j])
  {
    hide Strict, Matches, UniqueSites, Cfg.PathTo, Enter, Run, Meaning, Read, Cfg.Dominates, IsPhiOf, AllMean;
    var s, s', v := Run(f, code, start, path[..|path| - 1]), Enter(f, code, start, path), vals[c][j];
    MatchesShape(code, vals, bits);
    MatchesMeans(code, vals, bits, c, j);
    StrictShape(g, code);
    PathWalks(g, code, path, b);
    if v.op == Fresh {
      GivenMeans(bits, call, s', v);
    } else {
      assert g.StrictlyDominates(c, b);
      SameBelowEdge(f, g, code, start, path, b, c, j);
      var q := SitePath(g, code, c, j, b, 0, path);
      MeaningStays(g, code, vals, bits, call, c, j, s, s', q);
      ReachesPred(g, code, vals, bits, call, path[|path| - 2], b, s, c, j);
      NoPhiHere(code, b, c, j);
      EnterKeeps(f, code, start, path, v.id);
    }
  }

  lemma ReachesPred(g: Cfg, code: Body, vals: Vals, bits: Bits, call: Callee, p: Block, b: Block, s: State, c: Block,
                    j: nat)
    requires g.Valid() && |code| == g.Size() && g.Edge(p, b) && p < |code| && g.StrictlyDominates(c, b)
    requires c < |vals| && j < |vals[c]| && c < |code| && j < |code[c]|
    requires AllMean(g, code, vals, bits, call, p, |code[p]|, s)
    ensures MeansAt(bits, call, s, vals[c][j])
  {
    hide MeansAt;
    StrictDominatorOfPred(g, c, p, b);
    assert Reaches(g, code, c, j, p, |code[p]|);
  }

  lemma NoPhiHere(code: Body, b: Block, c: Block, j: nat)
    requires UniqueSites(code) && c < |code| && j < |code[c]| && code[c][j].Ins?
    ensures !IsPhiOf(code, b, code[c][j].id)
  {
    assert DefinedAt(code, c, j, code[c][j].id);
  }

  lemma SameBelowEdge(f: Machine, g: Cfg, code: Body, start: map<nat, int>, path: seq<Block>, b: Block, c: Block,
                      j: nat)
    requires UniqueSites(code) && g.PathTo(path, b) && |path| > 1 && g.StrictlyDominates(c, b)
    requires PathIn(code, path) && PathIn(code, path[..|path| - 1]) && Last(path) == b
    requires c < |code| && j < |code[c]|
    ensures SameBelow(g, code, c, j, Run(f, code, start, path[..|path| - 1]), Enter(f, code, start, path))
  {
    hide UniqueSites, Cfg.PathTo, Enter, Run, Read, Cfg.Dominates;
    var s, s' := Run(f, code, start, path[..|path| - 1]), Enter(f, code, start, path);
    forall x | !IsDefined(code, x)
      ensures Read(s, Ref(x)) == Read(s', Ref(x))
    {
      EnterKeeps(f, code, start, path, x);
    }
    forall d: Block, i: nat | d < |code| && i < |code[d]| && Reaches(g, code, d, i, c, j)
      ensures Read(s, Ref(code[d][i].id)) == Read(s', Ref(code[d][i].id))
    {
      if IsPhiOf(code, b, code[d][i].id) {
        var k: nat :| DefinedAt(code, b, k, code[d][i].id) && code[b][k].Phi?;
        OneSite(code, d, i, b, k);
        NoMutualDominance(g, c, b, path);
        assert false;
      }
      EnterKeeps(f, code, start, path, code[d][i].id);
    }
  }

  lemma StartMeans(g: Cfg, code: Body, vals: Vals, bits: Bits, call: Callee, s: State)
    requires Strict(g, code) && Matches(code, vals, bits)
    ensures AllMean(g, code, vals, bits, call, ENTRY, 0, s)
  {
    hide Strict, Matches, MeansAt, UniqueSites;
    StrictShape(g, code);
    MatchesShape(code, vals, bits);
    assert g.PathTo([ENTRY], ENTRY);
    forall c: Block, j: nat | c < |vals| && j < |vals[c]| && Reaches(g, code, c, j, ENTRY, 0)
      ensures MeansAt(bits, call, s, vals[c][j])
    {
      assert !g.StrictlyDominates(c, ENTRY);
      MatchesMeans(code, vals, bits, c, j);
      GivenMeans(bits, call, s, vals[c][j]);
    }
  }

  /** On every path, every value at hand is what its graph means. */
  lemma {:induction false} ValuesMean(f: Machine, g: Cfg, code: Body, vals: Vals, bits: Bits, call: Callee,
                                      start: map<nat, int>, path: seq<Block>, b: Block, k: nat)
    requires Strict(g, code) && |code| == g.Size() && Matches(code, vals, bits) && Implements(f, vals, call)
    requires g.PathTo(path, b) && k <= |code[b]|
    ensures PathIn(code, path) && Last(path) == b
    ensures AllMean(g, code, vals, bits, call, b, k, RunTo(f, code, start, path, k))
    decreases |path|, k
  {
    hide Strict, Matches, Implements, AllMean, Exec, RunTo, Enter, Run;
    PathWalks(g, code, path, b);
    if k > 0 {
      ValuesMean(f, g, code, vals, bits, call, start, path, b, k - 1);
      RunStep(f, code, start, path, k - 1);
      StepMeans(f, g, code, vals, bits, call, b, k - 1, RunTo(f, code, start, path, k - 1), path);
    } else {
      RunBegins(f, code, start, path);
      if |path| > 1 {
        var path0, p := path[..|path| - 1], path[|path| - 2];
        ValuesMean(f, g, code, vals, bits, call, start, path0, p, |code[p]|);
        RunIsRunTo(f, code, start, path0);
        EdgeMeans(f, g, code, vals, bits, call, start, path, b);
      } else {
        StartMeans(g, code, vals, bits, call, Enter(f, code, start, path));
      }
    }
  }

  // ----- replacing -----

  ghost function Named(replace: map<Val, Val>, x: nat): Val
    requires exists v :: v in replace && v.Instr? && v.id == x
  {
    var v :| v in replace && v.Instr? && v.id == x;
    v
  }

  ghost function SubstOf(replace: map<Val, Val>, bits: Bits): Subst {
    map x | x in (set v | v in replace && v.Instr? :: v.id) :: OperandOf(bits, replace[Named(replace, x)])
  }

  /** What value numbering gives: replacements of the same value, constants or at hand before. */
  ghost predicate Replacing(g: Cfg, vals: Vals, replace: map<Val, Val>) {
    forall v :: v in replace ==> SameValue(v, replace[v]) && ReplacedBy(g, vals, v, replace[v])
  }

  ghost predicate ReplacedBy(g: Cfg, vals: Vals, v: Val, r: Val) {
    StandsIn(vals, v) && (r.IsConstant() || StandsAbove(g, vals, v, r))
  }

  /** `r` comes before `v` on every way to it: earlier in its block, or in a block that strictly dominates it. */
  ghost predicate StandsAbove(g: Cfg, vals: Vals, v: Val, r: Val) {
    exists b: Block, k: nat :: b < |vals| && k < |vals[b]| && vals[b][k] == v && Survivors.ComesBefore(g, vals, b, k, r)
  }

  lemma ReplacementReaches(g: Cfg, code: Body, vals: Vals, bits: Bits, c: Block, j: nat, r: Val, b: Block, k: nat,
                           p: seq<Block>) returns (d: Block, i: nat)
    requires Matches(code, vals, bits) && c < |vals| && j < |vals[c]| && Survivors.ComesBefore(g, vals, c, j, r)
    requires Reaches(g, code, c, j, b, k) && g.PathTo(p, b)
    ensures d < |vals| && i < |vals[d]| && vals[d][i] == r && Reaches(g, code, d, i, b, k)
  {
    hide Matches, Cfg.PathTo, Cfg.Dominates;
    MatchesShape(code, vals, bits);
    if LeaderTables.InBlock(vals, c, j, r) {
      i :| i < j && i < |vals[c]| && vals[c][i] == r;
      d := c;
    } else {
      d :| g.StrictlyDominates(d, c) && d < |vals| && LeaderTables.InBlock(vals, d, |vals[d]|, r);
      i :| i < |vals[d]| && vals[d][i] == r;
    }
    assert Reaches(g, code, d, i, c, j);
    ReachesTrans(g, code, d, i, c, j, b, k, p);
  }

  lemma SiteReaches(g: Cfg, code: Body, c: Block, j: nat, b: Block, k: nat)
    requires UniqueSites(code) && c < |code| && j < |code[c]| && Available(g, code, b, k, code[c][j].id)
    ensures Reaches(g, code, c, j, b, k)
  {
    hide Cfg.StrictlyDominates;
    assert DefinedAt(code, c, j, code[c][j].id);
  }

  lemma SubstSame(f: Machine, g: Cfg, code: Body, vals: Vals, bits: Bits, call: Callee, replace: map<Val, Val>,
                  path: seq<Block>, b: Block, k: nat, s: State, x: nat)
    requires Strict(g, code) && Matches(code, vals, bits) && Replacing(g, vals, replace) && g.PathTo(path, b)
    requires AllMean(g, code, vals, bits, call, b, k, s) && x in SubstOf(replace, bits) && Available(g, code, b, k, x)
    ensures Read(s, Ref(x)) == Read(s, SubstOf(replace, bits)[x])
  {
    hide Strict, Matches, UniqueSites, Available, Reaches, Cfg.PathTo, Survivors.ComesBefore, Meaning, Read;
    var v := Named(replace, x);
    var r, w := replace[v], WorldOf(bits, call, s);
    StrictShape(g, code);
    MatchesShape(code, vals, bits);
    assert ReplacedBy(g, vals, v, r);
    var c: Block, j: nat;
    if r.IsConstant() {
      c, j :| c < |vals| && j < |vals[c]| && vals[c][j] == v;
    } else {
      c, j :| c < |vals| && j < |vals[c]| && vals[c][j] == v && Survivors.ComesBefore(g, vals, c, j, r);
    }
    MatchesMeans(code, vals, bits, c, j);
    SiteReaches(g, code, c, j, b, k);
    assert MeansAt(bits, call, s, v);
    if r.IsConstant() {
      GivenMeans(bits, call, s, r);
    } else {
      var d, i := ReplacementReaches(g, code, vals, bits, c, j, r, b, k, path);
      assert MeansAt(bits, call, s, r);
    }
    assert Meaning(w, v) == Meaning(w, r);
  }

  /** Value numbering changes no run: on every path, the code with the replacements does what the original does. */
  lemma NumberingKeepsRuns(f: Machine, g: Cfg, code: Body, vals: Vals, bits: Bits, call: Callee,
                           replace: map<Val, Val>, start: map<nat, int>, path: seq<Block>, b: Block)
    requires Strict(g, code) && Matches(code, vals, bits) && Implements(f, vals, call) && Replacing(g, vals, replace)
    requires g.PathTo(path, b)
    ensures TraceKept(f, code, Rewritten(code, SubstOf(replace, bits)), start, path)
  {
    hide Strict, Matches, Implements, Replacing, SubstOf, Run, AllMean, Available, RunTo;
    StrictShape(g, code);
    var sub := SubstOf(replace, bits);
    forall path: seq<Block>, b: Block, k: nat {:trigger SameAlong(f, g, code, sub, start, path, b, k)} |
      g.PathTo(path, b) && k <= |code[b]|
      ensures SameAlong(f, g, code, sub, start, path, b, k)
    {
      PathWalks(g, code, path, b);
      ValuesMean(f, g, code, vals, bits, call, start, path, b, k);
      forall x | x in sub && Available(g, code, b, k, x)
        ensures Read(RunTo(f, code, start, path, k), Ref(x)) == Read(RunTo(f, code, start, path, k), sub[x])
      {
        SubstSame(f, g, code, vals, bits, call, replace, path, b, k, RunTo(f, code, start, path, k), x);
      }
    }
    RewrittenRun(f, g, code, sub, start, path, b);
  }

  /** No run of any code that has these values is changed by the replacements. */
  ghost predicate KeepsRuns(g: Cfg, vals: Vals, replace: map<Val, Val>) {
    forall f: Machine, code: Body, bits: Bits, call: Callee, start: map<nat, int>, path: seq<Block>, b: Block
      {:trigger RunKept(f, g, code, vals, bits, call, replace, start, path, b)} ::
      RunKept(f, g, code, vals, bits, call, replace, start, path, b)
  }

  ghost predicate RunKept(f: Machine, g: Cfg, code: Body, vals: Vals, bits: Bits, call: Callee, replace: map<Val, Val>,
                          start: map<nat, int>, path: seq<Block>, b: Block)
  {
    Strict(g, code) && Matches(code, vals, bits) && Implements(f, vals, call) && g.PathTo(path, b) ==>
      TraceKept(f, code, Rewritten(code, SubstOf(replace, bits)), start, path)
  }

  lemma NothingChanged(g: Cfg, vals: Vals, replace: map<Val, Val>)
    requires Replacing(g, vals, replace)
    ensures KeepsRuns(g, vals, replace)
  {
    hide Strict, Matches, Implements, Replacing, SubstOf, TraceKept, Cfg.PathTo;
    forall f: Machine, code: Body, bits: Bits, call: Callee, start: map<nat, int>, path: seq<Block>, b: Block
      ensures RunKept(f, g, code, vals, bits, call, replace, start, path, b)
    {
      if Strict(g, code) && Matches(code, vals, bits) && Implements(f, vals, call) && g.PathTo(path, b) {
        NumberingKeepsRuns(f, g, code, vals, bits, call, replace, start, path, b);
      }
    }
  }
}
