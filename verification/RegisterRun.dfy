/** Running a lowered function with its values kept in registers and stack slots, and why that computes the same as
    giving every value a place of its own. */
module RegisterRun {
  import opened Graphs
  import opened Lowered

  /** A place for a value: a register of some bank, or the value's own slot. */
  datatype Loc = Own(v: Val) | Register(isFloat: bool, no: int)

  type Locator = Val -> Loc

  /** The unbounded temporaries. */
  const TEMPORARIES: Locator := (v: Val) => Own(v)

  /** Something an instruction or a group of copies read, and where. */
  datatype Event = Event(b: Block, k: nat, read: seq<int>)

  /** The results of instructions depend on everything read so far. */
  type Oracle = seq<Event> -> int

  datatype State = State(store: Loc -> int, trace: seq<Event>)

  function Read(loc: Locator, s: Loc -> int, o: Operand): int {
    match o
    case Reg(v) => s(loc(v))
    case Other(c) => c
  }

  function ReadAll(loc: Locator, s: Loc -> int, ops: seq<Operand>): seq<int> {
    if ops == [] then [] else ReadAll(loc, s, ops[..|ops| - 1]) + [Read(loc, s, ops[|ops| - 1])]
  }

  function ReadSources(loc: Locator, s: Loc -> int, copies: seq<Copy>): (r: seq<int>)
    ensures |r| == |copies|
  {
    if copies == [] then []
    else ReadSources(loc, s, copies[..|copies| - 1]) + [Read(loc, s, copies[|copies| - 1].1)]
  }

  function Write(s: Loc -> int, l: Loc, x: int): Loc -> int {
    l' => if l' == l then x else s(l')
  }

  /** All sources have been read; the targets are written one after the other. */
  function WriteTargets(loc: Locator, s: Loc -> int, copies: seq<Copy>, vals: seq<int>): Loc -> int
    requires |vals| == |copies|
  {
    if copies == [] then s
    else Write(WriteTargets(loc, s, copies[..|copies| - 1], vals[..|copies| - 1]),
               loc(copies[|copies| - 1].0), vals[|copies| - 1])
  }

  function Step(f: Fun, loc: Locator, oracle: Oracle, b: Block, k: nat, st: State): State
    requires b < |f.blocks| && k < f.blocks[b].StepCount()
  {
    var blk := f.blocks[b];
    if blk.IsCopyStep(k) then
      var vals := ReadSources(loc, st.store, blk.copies);
      State(WriteTargets(loc, st.store, blk.copies, vals), st.trace + [Event(b, k, vals)])
    else
      var instr := blk.InsAt(k);
      var trace := st.trace + [Event(b, k, ReadAll(loc, st.store, instr.ops))];
      State(if instr.def.Some? then Write(st.store, loc(instr.def.value), oracle(trace)) else st.store, trace)
  }

  /** The state before step `k` of the last block of a walk. */
  function RunTo(f: Fun, loc: Locator, oracle: Oracle, start: Loc -> int, p: seq<Block>, k: nat): State
    requires |p| > 0 && (forall i :: 0 <= i < |p| ==> p[i] < |f.blocks|) && k <= f.blocks[p[|p| - 1]].StepCount()
    decreases |p|, k
  {
    var b := p[|p| - 1];
    if k > 0 then Step(f, loc, oracle, b, k - 1, RunTo(f, loc, oracle, start, p, k - 1))
    else if |p| == 1 then State(start, [])
    else RunTo(f, loc, oracle, start, p[..|p| - 1], f.blocks[p[|p| - 2]].StepCount())
  }

  /** No step writes over the place of another value that is live after it. */
  ghost predicate Separates(f: Fun, loc: Locator)
    requires |f.blocks| == f.g.Size()
  {
    forall b: Block, k: nat, d, v {:trigger d in f.blocks[b].Defs(k), f.Live(v, b, k + 1)} ::
      b < |f.blocks| && k < f.blocks[b].StepCount() && d in f.blocks[b].Defs(k) && f.Live(v, b, k + 1) && d != v ==>
      loc(d) != loc(v)
  }

  /** The live values are the same in both stores, and the same has been read. */
  ghost predicate Agree(f: Fun, loc: Locator, b: Block, k: nat, x: State, y: State)
    requires |f.blocks| == f.g.Size()
  {
    x.trace == y.trace && forall v :: f.Live(v, b, k) ==> x.store(loc(v)) == y.store(Own(v))
  }

  lemma {:induction false} ReadsAgree(loc: Locator, s: Loc -> int, t: Loc -> int, ops: seq<Operand>)
    requires forall v :: v in RegsOf(ops) ==> s(loc(v)) == t(Own(v))
    ensures ReadAll(loc, s, ops) == ReadAll(TEMPORARIES, t, ops)
  {
    if ops != [] {
      var o := ops[|ops| - 1];
      assert o.Reg? ==> o.v in RegsOf(ops);
      assert RegsOf(ops[..|ops| - 1]) <= RegsOf(ops);
      ReadsAgree(loc, s, t, ops[..|ops| - 1]);
    }
  }

  lemma {:induction false} SourcesAgree(loc: Locator, s: Loc -> int, t: Loc -> int, copies: seq<Copy>)
    requires forall v :: v in Sources(copies) ==> s(loc(v)) == t(Own(v))
    ensures ReadSources(loc, s, copies) == ReadSources(TEMPORARIES, t, copies)
  {
    if copies != [] {
      var c := copies[|copies| - 1];
      assert c.1.Reg? ==> c.1.v in Sources(copies);
      assert Sources(copies[..|copies| - 1]) <= Sources(copies);
      SourcesAgree(loc, s, t, copies[..|copies| - 1]);
    }
  }

  /** After the copies, a value whose place no other target shares is the same in both stores. */
  lemma {:induction false} TargetsAgree(loc: Locator, s: Loc -> int, t: Loc -> int, copies: seq<Copy>, vals: seq<int>,
                                        v: Val)
    requires |vals| == |copies| && (v in Targets(copies) || s(loc(v)) == t(Own(v)))
    requires forall d :: d in Targets(copies) && d != v ==> loc(d) != loc(v)
    ensures WriteTargets(loc, s, copies, vals)(loc(v)) == WriteTargets(TEMPORARIES, t, copies, vals)(Own(v))
  {
    if copies != [] {
      var front, c := copies[..|copies| - 1], copies[|copies| - 1];
      assert c.0 in Targets(copies) && Targets(front) <= Targets(copies);
      assert Targets(copies) == Targets(front) + {c.0} by {
        assert copies == front + [c];
      }
      if c.0 != v {
        TargetsAgree(loc, s, t, front, vals[..|copies| - 1], v);
      }
    }
  }

  lemma StepAgrees(f: Fun, loc: Locator, oracle: Oracle, b: Block, k: nat, x: State, y: State)
    requires f.Valid() && Separates(f, loc) && b < |f.blocks| && k < f.blocks[b].StepCount()
    requires Agree(f, loc, b, k, x, y)
    ensures Agree(f, loc, b, k + 1, Step(f, loc, oracle, b, k, x), Step(f, TEMPORARIES, oracle, b, k, y))
  {
    var blk := f.blocks[b];
    forall v | v in blk.Uses(k)
      ensures x.store(loc(v)) == y.store(Own(v))
    {
      LiveStep(f, v, b, k);
    }
    if blk.IsCopyStep(k) {
      CopiesAgree(f, loc, oracle, b, k, x, y);
    } else {
      ReadsAgree(loc, x.store, y.store, blk.InsAt(k).ops);
      var def := blk.InsAt(k).def;
      assert def.Some? ==> def.value in blk.Defs(k);
      forall v | f.Live(v, b, k + 1)
        ensures Step(f, loc, oracle, b, k, x).store(loc(v)) == Step(f, TEMPORARIES, oracle, b, k, y).store(Own(v))
      {
        LiveStep(f, v, b, k);
      }
    }
  }

  lemma CopiesAgree(f: Fun, loc: Locator, oracle: Oracle, b: Block, k: nat, x: State, y: State)
    requires f.Valid() && Separates(f, loc) && b < |f.blocks| && k < f.blocks[b].StepCount()
    requires f.blocks[b].IsCopyStep(k) && Agree(f, loc, b, k, x, y)
    requires forall v :: v in f.blocks[b].Uses(k) ==> x.store(loc(v)) == y.store(Own(v))
    ensures Agree(f, loc, b, k + 1, Step(f, loc, oracle, b, k, x), Step(f, TEMPORARIES, oracle, b, k, y))
  {
    var blk := f.blocks[b];
    SourcesAgree(loc, x.store, y.store, blk.copies);
    var vals := ReadSources(loc, x.store, blk.copies);
    forall v | f.Live(v, b, k + 1)
      ensures WriteTargets(loc, x.store, blk.copies, vals)(loc(v)) ==
              WriteTargets(TEMPORARIES, y.store, blk.copies, vals)(Own(v))
    {
      LiveStep(f, v, b, k);
      assert blk.Defs(k) == Targets(blk.copies);
      TargetsAgree(loc, x.store, y.store, blk.copies, vals, v);
    }
  }

  /** On every path, the run with shared places reads what the run with unbounded temporaries reads. */
  lemma {:induction false} RunsAgree(f: Fun, loc: Locator, oracle: Oracle, start: Loc -> int, temps: Loc -> int,
                                     p: seq<Block>, b: Block, k: nat)
    requires f.Valid() && Separates(f, loc) && f.g.PathTo(p, b) && k <= f.blocks[b].StepCount()
    requires forall v :: f.Live(v, ENTRY, 0) ==> start(loc(v)) == temps(Own(v))
    ensures forall i :: 0 <= i < |p| ==> p[i] < |f.blocks|
    ensures Agree(f, loc, b, k, RunTo(f, loc, oracle, start, p, k), RunTo(f, TEMPORARIES, oracle, temps, p, k))
    decreases |p|, k
  {
    hide Separates, Step;
    PathBlocksReachable(f.g, p, b);
    assert forall i :: 0 <= i < |p| ==> p[i] in p;
    if k > 0 {
      RunsAgree(f, loc, oracle, start, temps, p, b, k - 1);
      StepAgrees(f, loc, oracle, b, k - 1, RunTo(f, loc, oracle, start, p, k - 1),
                 RunTo(f, TEMPORARIES, oracle, temps, p, k - 1));
    } else if |p| > 1 {
      var a := p[|p| - 2];
      RunsAgree(f, loc, oracle, start, temps, p[..|p| - 1], a, f.blocks[a].StepCount());
      forall v | f.Live(v, b, 0)
        ensures f.Live(v, a, f.blocks[a].StepCount())
      {
        LiveEdge(f, v, a);
      }
    }
  }
}
