/** Runs with a memory and with calls that execute functions. Where the calls that count as harmless are calls of pure
    functions, such a run is a run whose results depend on operands and critical instructions only; so what the passes
    keep, they keep here. */
module MemoryRuns {
  import opened Basics
  import opened Graphs
  import opened SsaRun
  import opened DeadCodeElimination
  import opened PureCalls
  import ValueNumbering
  import NumberedRuns

  /** The functions that are called, what the other instructions compute, and what the critical ones among them do. The
      first operand of a call says which function. */
  datatype Surroundings = Surroundings(
    calls: set<nat>,
    funcs: seq<FuncInfos.Func>,
    inner: PureCalls.Machine,
    fuel: nat,
    compute: (nat, seq<int>, Memory) -> int,
    effect: (nat, seq<int>, Memory) -> Memory)

  datatype Full = Full(state: State, mem: Memory)

  function Call(w: Surroundings, xs: seq<int>, mem: Memory): Outcome {
    if xs != [] && xs[0] >= 0 then Invoke(w.funcs, w.inner, xs[0], xs[1..], mem, w.fuel) else Outcome(None, mem)
  }

  function ValueOf(o: Outcome): int {
    if o.result.Some? then o.result.value else 0
  }

  /** What an instruction gives and leaves behind. */
  function Do(w: Surroundings, id: nat, critical: bool, xs: seq<int>, mem: Memory): Outcome {
    if id in w.calls then Call(w, xs, mem)
    else Outcome(Some(w.compute(id, xs, mem)), if critical then w.effect(id, xs, mem) else mem)
  }

  function ExecFull(w: Surroundings, i: Ins, s: Full): Full {
    if i.Phi? then s
    else
      var xs := ReadAll(s.state, i.ops);
      var o := Do(w, i.id, i.critical, xs, s.mem);
      var trace := if i.critical then s.state.trace + [Event(i.id, xs)] else s.state.trace;
      Full(State(s.state.env[i.id := ValueOf(o)], trace), o.shared)
  }

  function ExecAllFull(w: Surroundings, code: seq<Ins>, s: Full): Full {
    if code == [] then s else ExecFull(w, code[|code| - 1], ExecAllFull(w, code[..|code| - 1], s))
  }

  function RunFull(w: Surroundings, body: Body, mem: Memory, start: map<nat, int>, path: seq<Block>): Full
    requires PathIn(body, path)
    decreases |path|
  {
    if |path| == 1 then ExecAllFull(w, body[Last(path)], Full(State(start, []), mem))
    else
      var s := RunFull(w, body, mem, start, path[..|path| - 1]);
      var env := s.state.env + PhiValues(body[Last(path)], path[|path| - 2], s.state);
      ExecAllFull(w, body[Last(path)], s.(state := s.state.(env := env)))
  }

  // ----- the same without a memory -----

  /** The memory that the critical instructions have made. */
  function MemAfter(w: Surroundings, mem: Memory, trace: seq<Event>): Memory {
    if trace == [] then mem
    else
      var last := trace[|trace| - 1];
      Do(w, last.id, true, last.read, MemAfter(w, mem, trace[..|trace| - 1])).shared
  }

  /** Harmless calls give what they give on an empty memory; everything else works on the memory that the critical
      instructions before it have made. */
  function MachineOf(w: Surroundings, critical: set<nat>, mem: Memory): SsaRun.Machine {
    (id: nat, xs: seq<int>, trace: seq<Event>) =>
      if id in critical then
        ValueOf(Do(w, id, true, xs, MemAfter(w, mem, if trace == [] then [] else trace[..|trace| - 1])))
      else ValueOf(Do(w, id, false, xs, if id in w.calls then map[] else MemAfter(w, mem, trace)))
  }

  ghost predicate CriticalAre(body: Body, critical: set<nat>) {
    forall i :: Occurs(body, i) && i.Ins? ==> (i.id in critical <==> i.critical)
  }

  /** An operand that no instruction of the code defines. */
  ghost predicate Fixed(body: Body, o: Operand) {
    o.Ref? ==> forall i :: Occurs(body, i) ==> i.id != o.id
  }

  /** Calls that are not critical are calls of pure functions. */
  ghost predicate PureCallees(w: Surroundings, body: Body, start: map<nat, int>) {
    forall i :: Occurs(body, i) && i.Ins? && !i.critical && i.id in w.calls ==> PureCallee(w, body, start, i)
  }

  ghost predicate PureCallee(w: Surroundings, body: Body, start: map<nat, int>, i: Ins)
    requires i.Ins?
  {
    i.ops != [] && Fixed(body, i.ops[0]) &&
    var g := Read(State(start, []), i.ops[0]); g >= 0 && BehavesPurely(w.funcs, g)
  }

  /** What the analysis finds, as far as its addresses have one source, is enough. */
  lemma AnalysedCallees(w: Surroundings, body: Body, start: map<nat, int>)
    requires AccessesSingleSource(w.funcs)
    requires forall i :: Occurs(body, i) && i.Ins? && !i.critical && i.id in w.calls ==>
               i.ops != [] && Fixed(body, i.ops[0]) &&
               var g := Read(State(start, []), i.ops[0]); g >= 0 && !FuncInfos.Impure(w.funcs, g)
    ensures PureCallees(w, body, start)
  {
    hide BehavesPurely, AccessesSingleSource, Occurs, Fixed, FuncInfos.Impure;
    forall i | Occurs(body, i) && i.Ins? && !i.critical && i.id in w.calls
      ensures PureCallee(w, body, start, i)
    {
      PureBehavesPurely(w.funcs, Read(State(start, []), i.ops[0]));
    }
  }

  lemma PureCallHarmless(w: Surroundings, xs: seq<int>, mem: Memory)
    requires xs != [] && xs[0] >= 0 && BehavesPurely(w.funcs, xs[0])
    ensures Call(w, xs, mem).shared == mem && Call(w, xs, mem).result == Call(w, xs, map[]).result
  {
    hide Invoke;
  }

  /** What nothing defines is as it was at the start. */
  ghost predicate StartKept(body: Body, start: map<nat, int>, s: State) {
    forall x :: (forall i :: Occurs(body, i) ==> i.id != x) ==> Read(s, Ref(x)) == Read(State(start, []), Ref(x))
  }

  ghost predicate Corresponds(w: Surroundings, body: Body, mem: Memory, start: map<nat, int>, s: Full, t: State) {
    s == Full(t, MemAfter(w, mem, t.trace)) && StartKept(body, start, t)
  }

  lemma StepCorresponds(w: Surroundings, body: Body, critical: set<nat>, mem: Memory, start: map<nat, int>, i: Ins,
                        s: Full, t: State)
    requires CriticalAre(body, critical) && PureCallees(w, body, start) && Occurs(body, i)
    requires Corresponds(w, body, mem, start, s, t)
    ensures Corresponds(w, body, mem, start, ExecFull(w, i, s), Exec(MachineOf(w, critical, mem), i, t))
  {
    hide Occurs, BehavesPurely, PureCallees, StartKept;
    var f := MachineOf(w, critical, mem);
    StepKept(f, body, start, i, t);
    if i.Ins? {
      var xs := ReadAll(t, i.ops);
      if i.critical {
        var trace := t.trace + [Event(i.id, xs)];
        assert trace[..|trace| - 1] == t.trace;
      } else if i.id in w.calls {
        CalleePure(w, body, start, i, t);
        PureCallHarmless(w, xs, s.mem);
      }
    }
  }

  lemma StepKept(f: SsaRun.Machine, body: Body, start: map<nat, int>, i: Ins, t: State)
    requires Occurs(body, i) && StartKept(body, start, t)
    ensures StartKept(body, start, Exec(f, i, t))
  {
    hide Occurs;
    forall x | forall j :: Occurs(body, j) ==> j.id != x
      ensures Read(Exec(f, i, t), Ref(x)) == Read(State(start, []), Ref(x))
    {
      ExecKeeps(f, i, t, x);
    }
  }

  lemma CalleePure(w: Surroundings, body: Body, start: map<nat, int>, i: Ins, t: State)
    requires PureCallees(w, body, start) && Occurs(body, i) && i.Ins? && !i.critical && i.id in w.calls
    requires StartKept(body, start, t)
    ensures var xs := ReadAll(t, i.ops); xs != [] && xs[0] >= 0 && BehavesPurely(w.funcs, xs[0])
  {
    hide Occurs, BehavesPurely;
    assert PureCallee(w, body, start, i);
    assert Read(t, i.ops[0]) == Read(State(start, []), i.ops[0]);
  }

  lemma {:induction false} CodeCorresponds(w: Surroundings, body: Body, critical: set<nat>, mem: Memory,
                                           start: map<nat, int>, code: seq<Ins>, s: Full, t: State)
    requires CriticalAre(body, critical) && PureCallees(w, body, start) && forall i :: i in code ==> Occurs(body, i)
    requires Corresponds(w, body, mem, start, s, t)
    ensures Corresponds(w, body, mem, start, ExecAllFull(w, code, s), ExecAll(MachineOf(w, critical, mem), code, t))
    decreases |code|
  {
    hide Occurs, PureCallees, CriticalAre, Corresponds, Exec, ExecFull;
    if code != [] {
      var n := |code| - 1;
      CodeCorresponds(w, body, critical, mem, start, code[..n], s, t);
      StepCorresponds(w, body, critical, mem, start, code[n], ExecAllFull(w, code[..n], s),
                      ExecAll(MachineOf(w, critical, mem), code[..n], t));
    }
  }

  lemma EdgeCorresponds(w: Surroundings, body: Body, mem: Memory, start: map<nat, int>, b: Block, p: Block, s: Full,
                        t: State)
    requires Corresponds(w, body, mem, start, s, t) && b < |body|
    ensures Corresponds(w, body, mem, start, s.(state := s.state.(env := s.state.env + PhiValues(body[b], p, s.state))),
                        t.(env := t.env + PhiValues(body[b], p, t)))
  {
    hide PhiValues;
    var t' := t.(env := t.env + PhiValues(body[b], p, t));
    forall k: nat | k < |body[b]|
      ensures Occurs(body, body[b][k])
    {
    }
    forall x | forall i :: Occurs(body, i) ==> i.id != x
      ensures Read(t', Ref(x)) == Read(State(start, []), Ref(x))
    {
      PhiValue(body[b], p, t, x);
    }
  }

  /** On every path the run with memory and calls is a run that depends on critical instructions only. */
  lemma {:induction false} RunCorresponds(w: Surroundings, body: Body, critical: set<nat>, mem: Memory,
                                          start: map<nat, int>, path: seq<Block>)
    requires CriticalAre(body, critical) && PureCallees(w, body, start) && PathIn(body, path)
    ensures Corresponds(w, body, mem, start, RunFull(w, body, mem, start, path),
                        Run(MachineOf(w, critical, mem), body, start, path))
    decreases |path|
  {
    hide PureCallees, CriticalAre, Corresponds;
    var f, b := MachineOf(w, critical, mem), Last(path);
    forall i | i in body[b]
      ensures Occurs(body, i)
    {
    }
    if |path| == 1 {
      StartCorresponds(w, body, mem, start);
      CodeCorresponds(w, body, critical, mem, start, body[b], Full(State(start, []), mem), State(start, []));
    } else {
      var path0, p := path[..|path| - 1], path[|path| - 2];
      RunCorresponds(w, body, critical, mem, start, path0);
      var s, t := RunFull(w, body, mem, start, path0), Run(f, body, start, path0);
      EdgeCorresponds(w, body, mem, start, b, p, s, t);
      CodeCorresponds(w, body, critical, mem, start, body[b],
                      s.(state := s.state.(env := s.state.env + PhiValues(body[b], p, s.state))),
                      t.(env := t.env + PhiValues(body[b], p, t)));
    }
  }

  lemma StartCorresponds(w: Surroundings, body: Body, mem: Memory, start: map<nat, int>)
    ensures Corresponds(w, body, mem, start, Full(State(start, []), mem), State(start, []))
  {
  }

  // ----- the passes -----

  ghost predicate EffectsKept(w: Surroundings, body: Body, body': Body, mem: Memory, start: map<nat, int>,
                              path: seq<Block>)
  {
    && PathIn(body, path) && PathIn(body', path)
    && var s, s' := RunFull(w, body, mem, start, path), RunFull(w, body', mem, start, path);
       s.state.trace == s'.state.trace && s.mem == s'.mem
  }

  /** A pass that keeps the traces of machines keeps effects and memory. */
  lemma TraceKeptFull(w: Surroundings, body: Body, body': Body, critical: set<nat>, mem: Memory, start: map<nat, int>,
                      path: seq<Block>)
    requires CriticalAre(body, critical) && PureCallees(w, body, start)
    requires CriticalAre(body', critical) && PureCallees(w, body', start)
    requires TraceKept(MachineOf(w, critical, mem), body, body', start, path)
    ensures EffectsKept(w, body, body', mem, start, path)
  {
    hide CriticalAre, PureCallees, Run, RunFull, StartKept;
    RunCorresponds(w, body, critical, mem, start, path);
    RunCorresponds(w, body', critical, mem, start, path);
  }

  ghost function CriticalIds(body: Body): set<nat> {
    set b, k | 0 <= b < |body| && 0 <= k < |body[b]| && body[b][k].IsCritical() :: body[b][k].id
  }

  lemma CriticalIdsAre(body: Body)
    requires UniqueIds(body)
    ensures CriticalAre(body, CriticalIds(body))
  {
    forall i | Occurs(body, i) && i.Ins?
      ensures i.id in CriticalIds(body) <==> i.critical
    {
      if i.critical {
        var b: Block :| b < |body| && i in body[b];
        var k :| 0 <= k < |body[b]| && body[b][k] == i;
      }
      if i.id in CriticalIds(body) {
        var b, k :| 0 <= b < |body| && 0 <= k < |body[b]| && body[b][k].IsCritical() && body[b][k].id == i.id;
        assert Occurs(body, body[b][k]);
      }
    }
  }

  /** Deleting dead code, calls of pure functions included, changes no effect and no memory. */
  lemma SweepKeepsEffects(w: Surroundings, body: Body, m: set<nat>, mem: Memory, start: map<nat, int>, path: seq<Block>)
    requires ClosedUnder(body, m) && UniqueIds(body) && PureCallees(w, body, start) && PathIn(body, path)
    ensures EffectsKept(w, body, Swept(body, m), mem, start, path)
  {
    hide ClosedUnder, UniqueIds, PureCallees, Run, CriticalAre, PathIn, Swept, CriticalIds;
    var critical := CriticalIds(body);
    CriticalIdsAre(body);
    SweptStill(w, body, m, critical, start);
    SweepKeepsTrace(MachineOf(w, critical, mem), body, m, start, path);
    TraceKeptFull(w, body, Swept(body, m), critical, mem, start, path);
  }

  lemma SweptStill(w: Surroundings, body: Body, m: set<nat>, critical: set<nat>, start: map<nat, int>)
    requires CriticalAre(body, critical) && PureCallees(w, body, start)
    ensures CriticalAre(Swept(body, m), critical) && PureCallees(w, Swept(body, m), start)
  {
    hide Occurs, Swept, BehavesPurely;
    SweptAll(body, m);
    forall i | Occurs(Swept(body, m), i) && i.Ins? && !i.critical && i.id in w.calls
      ensures PureCallee(w, Swept(body, m), start, i)
    {
      assert PureCallee(w, body, start, i);
    }
  }

  // ----- value numbering -----

  /** What a pure call gives for its operands. */
  function PureResult(w: Surroundings): NumberedRuns.Callee {
    (xs: seq<int>) => ValueOf(Call(w, xs, map[]))
  }

  /** The instructions that value numbering looks into are calls, and operations that compute from their operands. */
  ghost predicate Computes(w: Surroundings, vals: NumberedRuns.Vals, critical: set<nat>) {
    forall b: Block, k: nat :: b < |vals| && k < |vals[b]| ==> ComputesAt(w, vals[b][k], critical)
  }

  ghost predicate ComputesAt(w: Surroundings, v: ValueNumbering.Val, critical: set<nat>) {
    v.Instr? && v.op != ValueNumbering.Fresh ==>
      && v.id !in critical && (v.id in w.calls <==> v.op == ValueNumbering.PureCall)
      && (v.op != ValueNumbering.PureCall ==> forall xs: seq<int>, mem: Memory {:trigger w.compute(v.id, xs, mem)} ::
            w.compute(v.id, xs, mem) == ValueNumbering.Apply(ValueNumbering.World(u => 0, PureResult(w)), v.op, xs))
  }

  /** That pure calls give the same for the same operands is no assumption any more. */
  lemma ImplementsCalls(w: Surroundings, vals: NumberedRuns.Vals, critical: set<nat>, mem: Memory)
    requires Computes(w, vals, critical)
    ensures NumberedRuns.Implements(MachineOf(w, critical, mem), vals, PureResult(w))
  {
    hide ValueNumbering.Apply, Call;
    var f := MachineOf(w, critical, mem);
    forall b: Block, k: nat, xs: seq<int>, tr: seq<Event> {:trigger f(vals[b][k].id, xs, tr)} |
      b < |vals| && k < |vals[b]| && vals[b][k].Instr? && vals[b][k].op != ValueNumbering.Fresh
      ensures f(vals[b][k].id, xs, tr) ==
              ValueNumbering.Apply(ValueNumbering.World(u => 0, PureResult(w)), vals[b][k].op, xs)
    {
      assert ComputesAt(w, vals[b][k], critical);
      if vals[b][k].op == ValueNumbering.PureCall {
        CallApplied(w, xs);
      }
    }
  }

  lemma CallApplied(w: Surroundings, xs: seq<int>)
    ensures ValueNumbering.Apply(ValueNumbering.World(u => 0, PureResult(w)), ValueNumbering.PureCall, xs) ==
            ValueOf(Call(w, xs, map[]))
  {
  }

  lemma RewrittenOccurs(body: Body, sub: Subst, i: Ins) returns (j: Ins)
    requires Occurs(Rewritten(body, sub), i)
    ensures Occurs(body, j) && i == RewrittenIns(j, sub)
  {
    hide RewrittenIns;
    var b: Block :| b < |body| && i in Rewritten(body, sub)[b];
    var k :| 0 <= k < |body[b]| && Rewritten(body, sub)[b][k] == i;
    j := body[b][k];
  }

  /** Nothing that is replaced is a callee, since only values of instructions are replaced. */
  ghost predicate OnlyDefined(body: Body, sub: Subst) {
    forall x :: x in sub ==> exists i :: Occurs(body, i) && i.id == x
  }

  lemma RewrittenStill(w: Surroundings, body: Body, sub: Subst, critical: set<nat>, start: map<nat, int>)
    requires CriticalAre(body, critical) && PureCallees(w, body, start) && OnlyDefined(body, sub)
    ensures CriticalAre(Rewritten(body, sub), critical) && PureCallees(w, Rewritten(body, sub), start)
  {
    hide Occurs, BehavesPurely, Rewritten;
    var body': Body := Rewritten(body, sub);
    forall i | Occurs(body', i) && i.Ins?
      ensures i.id in critical <==> i.critical
    {
      var j := RewrittenOccurs(body, sub, i);
    }
    forall i | Occurs(body', i) && i.Ins? && !i.critical && i.id in w.calls
      ensures PureCallee(w, body', start, i)
    {
      var j := RewrittenOccurs(body, sub, i);
      assert PureCallee(w, body, start, j);
      FixedStays(body, sub, j.ops[0]);
    }
  }

  lemma FixedStays(body: Body, sub: Subst, o: Operand)
    requires Fixed(body, o) && OnlyDefined(body, sub)
    ensures Instead(sub, o) == o && Fixed(Rewritten(body, sub), o)
  {
    hide Occurs, Rewritten;
    forall i | o.Ref? && Occurs(Rewritten(body, sub), i)
      ensures i.id != o.id
    {
      var j := RewrittenOccurs(body, sub, i);
    }
  }

  lemma SubstDefined(g: Cfg, code: Body, vals: NumberedRuns.Vals, bits: NumberedRuns.Bits,
                     replace: map<ValueNumbering.Val, ValueNumbering.Val>)
    requires NumberedRuns.Matches(code, vals, bits) && NumberedRuns.Replacing(g, vals, replace)
    ensures OnlyDefined(code, NumberedRuns.SubstOf(replace, bits))
  {
    hide NumberedRuns.StandsAbove, ValueNumbering.SameValue;
    var sub := NumberedRuns.SubstOf(replace, bits);
    forall x | x in sub
      ensures exists i :: Occurs(code, i) && i.id == x
    {
      var v := NumberedRuns.Named(replace, x);
      assert NumberedRuns.ReplacedBy(g, vals, v, replace[v]);
      StandsThere(g, vals, v, replace[v]);
      var b: Block, k: nat :| b < |vals| && k < |vals[b]| && vals[b][k] == v;
      NumberedRuns.MatchesMeans(code, vals, bits, b, k);
      assert Occurs(code, code[b][k]);
    }
  }

  lemma StandsThere(g: Cfg, vals: NumberedRuns.Vals, v: ValueNumbering.Val, r: ValueNumbering.Val)
    requires NumberedRuns.ReplacedBy(g, vals, v, r)
    ensures exists b: Block, k: nat :: b < |vals| && k < |vals[b]| && vals[b][k] == v
  {
  }

  /** Value numbering, which takes equal calls of pure functions for equal values, changes no effect and no memory. */
  lemma NumberingKeepsEffects(w: Surroundings, g: Cfg, code: Body, vals: NumberedRuns.Vals, bits: NumberedRuns.Bits,
                              replace: map<ValueNumbering.Val, ValueNumbering.Val>, mem: Memory,
                              start: map<nat, int>, path: seq<Block>, b: Block)
    requires Strict(g, code) && NumberedRuns.Matches(code, vals, bits) && NumberedRuns.Replacing(g, vals, replace)
    requires Computes(w, vals, CriticalIds(code)) && PureCallees(w, code, start) && g.PathTo(path, b)
    ensures EffectsKept(w, code, Rewritten(code, NumberedRuns.SubstOf(replace, bits)), mem, start, path)
  {
    hide Strict, NumberedRuns.Matches, NumberedRuns.Replacing, Computes, PureCallees, CriticalAre, Cfg.PathTo,
         NumberedRuns.SubstOf, NumberedRuns.Implements, UniqueSites, UniqueIds, TraceKept, EffectsKept, CriticalIds,
         OnlyDefined, Rewritten;
    var critical, sub := CriticalIds(code), NumberedRuns.SubstOf(replace, bits);
    StrictShape(g, code);
    UniqueInstructions(code);
    CriticalIdsAre(code);
    ImplementsCalls(w, vals, critical, mem);
    SubstDefined(g, code, vals, bits, replace);
    RewrittenStill(w, code, sub, critical, start);
    NumberedRuns.NumberingKeepsRuns(MachineOf(w, critical, mem), g, code, vals, bits, PureResult(w), replace, start,
                                    path, b);
    TraceKeptFull(w, code, Rewritten(code, sub), critical, mem, start, path);
  }
}
