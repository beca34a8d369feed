/** Functions whose phis have been lowered to parallel copies before the terminators of the predecessors, and what it
    means for a value to be live. */
module Lowered {
  import opened Basics
  import opened Graphs

  type Val = nat

  /** An instruction result or argument, or anything else, which liveness does not track. */
  datatype Operand = Reg(v: Val) | Other(c: int)

  /** An instruction that is not a phi. Void instructions define nothing. */
  datatype Ins = Ins(def: Option<Val>, ops: seq<Operand>)

  type Copy = (Val, Operand)

  datatype LBlock = LBlock(body: seq<Ins>, copies: seq<Copy>, term: Ins) {
    /** The non-phi instructions, the terminator last. */
    function Code(): (r: seq<Ins>)
      ensures |r| == |body| + 1
    {
      body + [term]
    }

    /** The block as a sequence of steps: the body, the copies (all at once, if there are any), the terminator. */
    function StepCount(): nat {
      |body| + (if copies == [] then 0 else 1) + 1
    }

    predicate IsCopyStep(k: nat) {
      k == |body| && copies != []
    }

    /** The instruction of a step that is not the copy step. */
    function InsAt(k: nat): Ins
      requires k < StepCount() && !IsCopyStep(k)
    {
      if k < |body| then body[k] else term
    }

    function Uses(k: nat): set<Val>
      requires k < StepCount()
    {
      if IsCopyStep(k) then Sources(copies) else RegsOf(InsAt(k).ops)
    }

    function Defs(k: nat): set<Val>
      requires k < StepCount()
    {
      if IsCopyStep(k) then Targets(copies) else if InsAt(k).def.Some? then {InsAt(k).def.value} else {}
    }
  }

  function RegsOf(ops: seq<Operand>): set<Val> {
    set o | o in ops && o.Reg? :: o.v
  }

  function Sources(copies: seq<Copy>): set<Val> {
    set c | c in copies && c.1.Reg? :: c.1.v
  }

  function Targets(copies: seq<Copy>): set<Val> {
    set c | c in copies :: c.0
  }

  datatype Fun = Fun(g: Cfg, blocks: seq<LBlock>, args: set<Val>) {
    ghost predicate Valid() {
      && g.Valid() && |blocks| == g.Size()
      && (forall b: Block :: b < g.Size() ==> g.Reachable(b))
      && (forall b: Block :: b < |blocks| ==> blocks[b].term.def.None?)
    }

    /** Within `n` steps or edges from the point before step `k` of block `b`, some path reads `v` before it is
        defined again. */
    ghost predicate LiveWithin(v: Val, b: Block, k: nat, n: nat)
      requires |blocks| == g.Size()
      decreases n
    {
      && n > 0 && b < |blocks|
      && if k < blocks[b].StepCount() then
           v in blocks[b].Uses(k) || (v !in blocks[b].Defs(k) && LiveWithin(v, b, k + 1, n - 1))
         else k == blocks[b].StepCount() && exists s: Block :: g.Edge(b, s) && LiveWithin(v, s, 0, n - 1)
    }

    ghost predicate Live(v: Val, b: Block, k: nat)
      requires |blocks| == g.Size()
    {
      exists n: nat :: LiveWithin(v, b, k, n)
    }
  }

  lemma LiveStep(f: Fun, v: Val, b: Block, k: nat)
    requires |f.blocks| == f.g.Size() && b < |f.blocks| && k < f.blocks[b].StepCount()
    ensures f.Live(v, b, k) <==> v in f.blocks[b].Uses(k) || (v !in f.blocks[b].Defs(k) && f.Live(v, b, k + 1))
  {
    if f.Live(v, b, k) {
      var n: nat :| f.LiveWithin(v, b, k, n);
      assert v in f.blocks[b].Uses(k) || f.LiveWithin(v, b, k + 1, n - 1);
    }
    if v in f.blocks[b].Uses(k) {
      assert f.LiveWithin(v, b, k, 1);
    } else if v !in f.blocks[b].Defs(k) && f.Live(v, b, k + 1) {
      var n: nat :| f.LiveWithin(v, b, k + 1, n);
      assert f.LiveWithin(v, b, k, n + 1);
    }
  }

  lemma LiveEdge(f: Fun, v: Val, b: Block)
    requires |f.blocks| == f.g.Size() && b < |f.blocks|
    ensures f.Live(v, b, f.blocks[b].StepCount()) <==> exists s: Block :: f.g.Edge(b, s) && f.Live(v, s, 0)
  {
    var k := f.blocks[b].StepCount();
    if f.Live(v, b, k) {
      var n: nat :| f.LiveWithin(v, b, k, n);
      var s: Block :| f.g.Edge(b, s) && f.LiveWithin(v, s, 0, n - 1);
      assert f.Live(v, s, 0);
    }
    if exists s: Block :: f.g.Edge(b, s) && f.Live(v, s, 0) {
      var s: Block :| f.g.Edge(b, s) && f.Live(v, s, 0);
      var n: nat :| f.LiveWithin(v, s, 0, n);
      assert f.LiveWithin(v, b, k, n + 1);
    }
  }

  /** A guess at the live sets that is closed under the dataflow equations. */
  ghost predicate Solves(f: Fun, x: (Block, nat) -> set<Val>)
    requires |f.blocks| == f.g.Size()
  {
    && (forall b: Block, k: nat :: b < |f.blocks| && k < f.blocks[b].StepCount() ==>
          f.blocks[b].Uses(k) + (x(b, k + 1) - f.blocks[b].Defs(k)) <= x(b, k))
    && (forall b: Block, s: Block :: b < |f.blocks| && s < |f.blocks| && f.g.Edge(b, s) ==>
          x(s, 0) <= x(b, f.blocks[b].StepCount()))
  }

  /** Liveness is contained in every solution of the equations. */
  lemma {:induction false} LiveIsLeast(f: Fun, x: (Block, nat) -> set<Val>, v: Val, b: Block, k: nat, n: nat)
    requires |f.blocks| == f.g.Size() && Solves(f, x) && f.LiveWithin(v, b, k, n)
    ensures v in x(b, k)
    decreases n
  {
    if k < f.blocks[b].StepCount() {
      if v !in f.blocks[b].Uses(k) {
        LiveIsLeast(f, x, v, b, k + 1, n - 1);
      }
      assert f.blocks[b].Uses(k) + (x(b, k + 1) - f.blocks[b].Defs(k)) <= x(b, k);
    } else {
      var s: Block :| f.g.Edge(b, s) && f.LiveWithin(v, s, 0, n - 1);
      LiveIsLeast(f, x, v, s, 0, n - 1);
    }
  }
}
