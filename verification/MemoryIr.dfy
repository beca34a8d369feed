/** The part of the IR that promotion of stack variables touches, and what running it means.

    A run is judged by its trace: the sequence of all instructions other than the accesses to promoted variables,
    with the values of their operands. The results of those instructions are given by an oracle that sees the whole
    trace, so calls, loads from arrays and input may return anything that depends on what happened before. */
module MemoryIr {
  import opened Graphs

  type Slot = nat

  datatype Value =
    | Undef
    | Const(c: int)
    | Param(n: nat)
    | Result(id: nat)
    | PhiResult(block: Block, slot: Slot)

  /** `Phi` names the variable it stands for; its operands are kept beside the body. */
  datatype Instr =
    | Phi(block: Block, slot: Slot)
    | Alloca(id: nat)
    | Load(id: nat, ptr: Value)
    | Store(id: nat, val: Value, ptr: Value)
    | Op(id: nat, args: seq<Value>)
  {
    function Args(): seq<Value> {
      match this
      case Phi(_, _) => []
      case Alloca(_) => []
      case Load(_, ptr) => [ptr]
      case Store(_, val, ptr) => [val, ptr]
      case Op(_, args) => args
    }

    /** The instruction reads or writes variable `a` directly. */
    predicate Accesses(a: Slot) {
      (Load? || Store?) && ptr == Result(a)
    }

    predicate AccessesOneOf(prom: set<Slot>) {
      (Load? || Store?) && ptr.Result? && ptr.id in prom
    }

    /** A load, store or allocation of a promoted variable. */
    predicate Promoted(prom: set<Slot>) {
      AccessesOneOf(prom) || (Alloca? && id in prom)
    }
  }

  type PhiKey = (Block, Slot)
  type Body = seq<seq<Instr>>

  /** A function body with the incoming pairs of its phis. */
  datatype Prog = Prog(body: Body, incoming: map<PhiKey, seq<(Value, Block)>>)

  datatype Event = Event(id: nat, args: seq<int>)

  datatype World = World(oracle: seq<Event> -> int, params: nat -> int, undef: int)

  datatype State = State(env: map<nat, int>, phis: map<PhiKey, int>, mem: map<Slot, int>, trace: seq<Event>)

  function Lookup<K>(m: map<K, int>, k: K, default: int): int {
    if k in m then m[k] else default
  }

  function Eval(w: World, st: State, v: Value): int {
    match v
    case Undef => w.undef
    case Const(c) => c
    case Param(n) => w.params(n)
    case Result(id) => Lookup(st.env, id, w.undef)
    case PhiResult(b, a) => Lookup(st.phis, (b, a), w.undef)
  }

  function EvalAll(w: World, st: State, vs: seq<Value>): (r: seq<int>)
    ensures |r| == |vs|
    ensures forall i :: 0 <= i < |vs| ==> r[i] == Eval(w, st, vs[i])
  {
    seq(|vs|, i requires 0 <= i < |vs| => Eval(w, st, vs[i]))
  }

  /** An instruction that is not an access to a promoted variable happens in the trace. */
  function Happen(w: World, st: State, id: nat, vals: seq<int>): State {
    var trace := st.trace + [Event(id, vals)];
    st.(trace := trace, env := st.env[id := w.oracle(trace)])
  }

  /** Each promoted variable is one cell, fixed for the whole run. */
  function Exec(w: World, prom: set<Slot>, i: Instr, st: State): State {
    if i.Phi? || (i.Alloca? && i.id in prom) then st
    else if i.Load? && i.AccessesOneOf(prom) then st.(env := st.env[i.id := Lookup(st.mem, i.ptr.id, w.undef)])
    else if i.Store? && i.AccessesOneOf(prom) then st.(mem := st.mem[i.ptr.id := Eval(w, st, i.val)])
    else Happen(w, st, i.id, EvalAll(w, st, i.Args()))
  }

  function ExecAll(w: World, prom: set<Slot>, code: seq<Instr>, st: State): State {
    if code == [] then st else Exec(w, prom, code[|code| - 1], ExecAll(w, prom, code[..|code| - 1], st))
  }

  /** The value of the first incoming pair for predecessor `p`. */
  function FromPred(pairs: seq<(Value, Block)>, p: Block): Value {
    if pairs == [] then Undef
    else if pairs[0].1 == p then pairs[0].0
    else FromPred(pairs[1..], p)
  }

  function IncomingFor(incoming: map<PhiKey, seq<(Value, Block)>>, k: PhiKey, p: Block): Value {
    if k in incoming then FromPred(incoming[k], p) else Undef
  }

  function PhiKeys(code: seq<Instr>): set<PhiKey> {
    set i | i in code && i.Phi? :: (i.block, i.slot)
  }

  /** Crossing the edge from `p` to `b`: all phis of `b` take their operands at once. */
  function Cross(w: World, prog: Prog, st: State, p: Block, b: Block): State
    requires b < |prog.body|
  {
    st.(phis := st.phis + map k | k in PhiKeys(prog.body[b]) :: Eval(w, st, IncomingFor(prog.incoming, k, p)))
  }

  const START := State(map[], map[], map[], [])

  /** The state on entering the last block of a walk, its phis already taken. */
  function EntryState(w: World, prom: set<Slot>, prog: Prog, p: seq<Block>): State
    requires |p| > 0 && forall i :: 0 <= i < |p| ==> p[i] < |prog.body|
    decreases |p|, 0
  {
    if |p| == 1 then START
    else Cross(w, prog, RunPath(w, prom, prog, p[..|p| - 1]), p[|p| - 2], p[|p| - 1])
  }

  /** The state after executing all blocks of a walk from the entry block. */
  function RunPath(w: World, prom: set<Slot>, prog: Prog, p: seq<Block>): State
    requires |p| > 0 && forall i :: 0 <= i < |p| ==> p[i] < |prog.body|
    decreases |p|, 1
  {
    ExecAll(w, prom, prog.body[p[|p| - 1]], EntryState(w, prom, prog, p))
  }

  lemma ExecAllSnoc(w: World, prom: set<Slot>, code: seq<Instr>, i: Instr, st: State)
    ensures ExecAll(w, prom, code + [i], st) == Exec(w, prom, i, ExecAll(w, prom, code, st))
  {
    assert (code + [i])[..|code|] == code;
  }

  lemma PathInside(g: Cfg, p: seq<Block>, b: Block)
    requires g.PathTo(p, b)
    ensures forall i :: 0 <= i < |p| ==> p[i] < g.Size()
  {
    forall i | 0 <= i < |p|
      ensures p[i] < g.Size()
    {
      PathPrefix(g, p, b, i);
    }
  }
}
