/** The tables of the liveness loop, and what every visit of a block keeps about them. */
module LiveSets {
  import opened Graphs
  import opened Lowered

  /** Where a number was given: to an instruction (the terminator comes last) or to a copy. */
  datatype Place = InstrAt(b: Block, k: nat) | CopyAt(b: Block, j: nat)

  datatype Ids = Ids(instr: map<(Block, nat), int>, copy: map<Copy, int>)

  type Table = map<int, set<Val>>

  function At(t: Table, id: int): set<Val> {
    if id in t then t[id] else {}
  }

  ghost predicate HasInstrId(ids: Ids, owner: map<int, Place>, b: Block, k: nat) {
    (b, k) in ids.instr && ids.instr[(b, k)] in owner && owner[ids.instr[(b, k)]] == InstrAt(b, k)
  }

  ghost predicate HasCopyId(f: Fun, ids: Ids, owner: map<int, Place>, b: Block, j: nat)
    requires b < |f.blocks| && j < |f.blocks[b].copies|
  {
    var c := f.blocks[b].copies[j];
    c in ids.copy && ids.copy[c] in owner && owner[ids.copy[c]] == CopyAt(b, j)
  }

  /** Every instruction and copy has its own positive number; `owner` reads the numbers back. */
  ghost predicate Numbered(f: Fun, ids: Ids, owner: map<int, Place>) {
    && (forall id :: id in owner ==> 0 < id)
    && (forall b: Block, k: nat :: b < |f.blocks| && k <= |f.blocks[b].body| ==> HasInstrId(ids, owner, b, k))
    && (forall b: Block, j: nat :: b < |f.blocks| && j < |f.blocks[b].copies| ==> HasCopyId(f, ids, owner, b, j))
  }

  /** The number under which the sets of a step are found; the copy step goes by its first copy. */
  function StepId(f: Fun, ids: Ids, b: Block, k: nat): int
    requires b < |f.blocks| && k < f.blocks[b].StepCount()
  {
    var blk := f.blocks[b];
    if blk.IsCopyStep(k) then if blk.copies[0] in ids.copy then ids.copy[blk.copies[0]] else 0
    else
      var key := (b, if k < |blk.body| then k else |blk.body|);
      if key in ids.instr then ids.instr[key] else 0
  }

  lemma StepIdOwner(f: Fun, ids: Ids, owner: map<int, Place>, b: Block, k: nat)
    requires Numbered(f, ids, owner) && b < |f.blocks| && k < f.blocks[b].StepCount()
    ensures var id := StepId(f, ids, b, k);
            && 0 < id && id in owner
            && owner[id] == if f.blocks[b].IsCopyStep(k) then CopyAt(b, 0)
                            else InstrAt(b, if k < |f.blocks[b].body| then k else |f.blocks[b].body|)
  {
    var blk := f.blocks[b];
    if blk.IsCopyStep(k) {
      assert HasCopyId(f, ids, owner, b, 0);
    } else {
      assert HasInstrId(ids, owner, b, if k < |blk.body| then k else |blk.body|);
    }
  }

  lemma StepIdsDiffer(f: Fun, ids: Ids, owner: map<int, Place>, b: Block, k: nat, b': Block, k': nat)
    requires Numbered(f, ids, owner) && b < |f.blocks| && k < f.blocks[b].StepCount()
    requires b' < |f.blocks| && k' < f.blocks[b'].StepCount() && (b, k) != (b', k')
    ensures StepId(f, ids, b, k) != StepId(f, ids, b', k')
  {
    StepIdOwner(f, ids, owner, b, k);
    StepIdOwner(f, ids, owner, b', k');
  }

  /** The live-in table seen as a set per step. */
  function In(f: Fun, ids: Ids, ins: Table, b: Block, k: nat): set<Val>
    requires b < |f.blocks| && k < f.blocks[b].StepCount()
  {
    At(ins, StepId(f, ids, b, k))
  }

  /** What the table gives as live at the end of `b`. */
  ghost predicate IsJoin(f: Fun, ids: Ids, ins: Table, b: Block, out: set<Val>)
    requires f.Valid() && b < |f.blocks|
  {
    forall v :: v in out <==> exists s: Block :: f.g.Edge(b, s) && s < |f.blocks| && v in In(f, ids, ins, s, 0)
  }

  /** The live set before step `k` when `out` is live at the end of the block. */
  function Flow(f: Fun, b: Block, k: nat, out: set<Val>): set<Val>
    requires b < |f.blocks| && k <= f.blocks[b].StepCount()
    decreases f.blocks[b].StepCount() - k
  {
    if k == f.blocks[b].StepCount() then out
    else f.blocks[b].Uses(k) + (Flow(f, b, k + 1, out) - f.blocks[b].Defs(k))
  }

  lemma {:induction false} FlowMono(f: Fun, b: Block, k: nat, x: set<Val>, y: set<Val>)
    requires b < |f.blocks| && k <= f.blocks[b].StepCount() && x <= y
    ensures Flow(f, b, k, x) <= Flow(f, b, k, y)
    decreases f.blocks[b].StepCount() - k
  {
    if k < f.blocks[b].StepCount() {
      FlowMono(f, b, k + 1, x, y);
    }
  }

  /** Every value that liveness could mention. */
  ghost function Universe(f: Fun, n: nat): (r: set<Val>)
    requires n <= |f.blocks|
    ensures forall b: Block, k: nat :: b < n && k < f.blocks[b].StepCount() ==> f.blocks[b].Uses(k) <= r
  {
    if n == 0 then {} else Universe(f, n - 1) + BlockUses(f.blocks[n - 1], f.blocks[n - 1].StepCount())
  }

  ghost function BlockUses(b: LBlock, n: nat): (r: set<Val>)
    requires n <= b.StepCount()
    ensures forall k: nat :: k < n ==> b.Uses(k) <= r
  {
    if n == 0 then {} else BlockUses(b, n - 1) + b.Uses(n - 1)
  }

  // ----- what every visit keeps -----

  /** No more than the truth, over the finite universe. */
  ghost predicate SoundSets(f: Fun, ids: Ids, ins: Table)
    requires f.Valid()
  {
    forall b: Block, k: nat, v :: b < |f.blocks| && k < f.blocks[b].StepCount() && v in In(f, ids, ins, b, k) ==>
      f.Live(v, b, k) && v in Universe(f, |f.blocks|)
  }

  /** Recomputing a block from the present table can only enlarge its sets. */
  ghost predicate Supported(f: Fun, ids: Ids, ins: Table)
    requires f.Valid()
  {
    forall b: Block, k: nat, out {:trigger IsJoin(f, ids, ins, b, out), In(f, ids, ins, b, k)} ::
      b < |f.blocks| && k < f.blocks[b].StepCount() && IsJoin(f, ids, ins, b, out) ==>
      In(f, ids, ins, b, k) <= Flow(f, b, k, out)
  }

  /** The copies of a block agree with its terminator. */
  ghost predicate CopyAgrees(f: Fun, ids: Ids, ins: Table, b: Block)
    requires f.Valid() && b < |f.blocks|
  {
    var blk := f.blocks[b];
    blk.copies != [] ==>
      In(f, ids, ins, b, |blk.body|) ==
      Sources(blk.copies) + (In(f, ids, ins, b, |blk.body| + 1) - Targets(blk.copies))
  }

  /** The sets of block `b` are what the present table gives. */
  ghost predicate AtFixpoint(f: Fun, ids: Ids, ins: Table, outs: Table, b: Block)
    requires f.Valid() && b < |f.blocks|
  {
    exists out :: IsJoin(f, ids, ins, b, out) && Holds(f, ids, ins, outs, b, out)
  }

  /** The sets of block `b` are those that `out` at its end gives. */
  ghost predicate Holds(f: Fun, ids: Ids, ins: Table, outs: Table, b: Block, out: set<Val>)
    requires b < |f.blocks|
  {
    forall k: nat :: k < f.blocks[b].StepCount() ==>
      In(f, ids, ins, b, k) == Flow(f, b, k, out) && At(outs, StepId(f, ids, b, k)) == Flow(f, b, k + 1, out)
  }

  lemma JoinUnique(f: Fun, ids: Ids, ins: Table, b: Block, x: set<Val>, y: set<Val>)
    requires f.Valid() && b < |f.blocks| && IsJoin(f, ids, ins, b, x) && IsJoin(f, ids, ins, b, y)
    ensures x == y
  {
    forall v
      ensures v in x <==> v in y
    {
    }
  }

  ghost predicate Larger(f: Fun, ids: Ids, ins: Table, ins': Table) {
    forall b: Block, k: nat {:trigger In(f, ids, ins', b, k)} {:trigger In(f, ids, ins, b, k)} ::
      b < |f.blocks| && k < f.blocks[b].StepCount() ==> In(f, ids, ins, b, k) <= In(f, ids, ins', b, k)
  }

  lemma JoinMono(f: Fun, ids: Ids, ins: Table, ins': Table, b: Block, x: set<Val>, y: set<Val>)
    requires f.Valid() && b < |f.blocks| && Larger(f, ids, ins, ins')
    requires IsJoin(f, ids, ins, b, x) && IsJoin(f, ids, ins', b, y)
    ensures x <= y
  {
    forall v | v in x
      ensures v in y
    {
      var s: Block :| f.g.Edge(b, s) && s < |f.blocks| && v in In(f, ids, ins, s, 0);
      assert v in In(f, ids, ins', s, 0);
    }
  }

  ghost function TheJoin(f: Fun, ids: Ids, ins: Table, b: Block): (out: set<Val>)
    requires f.Valid() && b < |f.blocks|
    ensures IsJoin(f, ids, ins, b, out)
  {
    JoinUpTo(f, ids, ins, b, |f.g.succs[b]|)
  }

  ghost function JoinUpTo(f: Fun, ids: Ids, ins: Table, b: Block, n: nat): (out: set<Val>)
    requires f.Valid() && b < |f.blocks| && n <= |f.g.succs[b]|
    ensures forall v :: v in out <==>
              exists i :: 0 <= i < n && f.g.succs[b][i] < |f.blocks| && v in In(f, ids, ins, f.g.succs[b][i], 0)
    ensures n == |f.g.succs[b]| ==> IsJoin(f, ids, ins, b, out)
  {
    if n == 0 then
      JoinIsUpTo(f, ids, ins, b, {}, n);
      {}
    else
      assert f.g.Edge(b, f.g.succs[b][n - 1]);
      var out := JoinUpTo(f, ids, ins, b, n - 1) + In(f, ids, ins, f.g.succs[b][n - 1], 0);
      JoinIsUpTo(f, ids, ins, b, out, n);
      out
  }

  lemma JoinIsUpTo(f: Fun, ids: Ids, ins: Table, b: Block, out: set<Val>, n: nat)
    requires f.Valid() && b < |f.blocks| && n <= |f.g.succs[b]|
    requires forall v :: v in out <==>
               exists i :: 0 <= i < n && f.g.succs[b][i] < |f.blocks| && v in In(f, ids, ins, f.g.succs[b][i], 0)
    ensures n == |f.g.succs[b]| ==> IsJoin(f, ids, ins, b, out)
  {
    if n == |f.g.succs[b]| {
      forall v
        ensures v in out <==> exists s: Block :: f.g.Edge(b, s) && s < |f.blocks| && v in In(f, ids, ins, s, 0)
      {
        if s: Block :| f.g.Edge(b, s) && s < |f.blocks| && v in In(f, ids, ins, s, 0) {
          var i :| 0 <= i < n && f.g.succs[b][i] == s;
        }
        if v in out {
          var i :| 0 <= i < n && f.g.succs[b][i] < |f.blocks| && v in In(f, ids, ins, f.g.succs[b][i], 0);
          assert f.g.Edge(b, f.g.succs[b][i]);
        }
      }
    }
  }

  /** What a visit of `b` with `out` at its end does to the live-in table: its instructions gain, its copies are set. */
  ghost predicate Visited(f: Fun, ids: Ids, ins: Table, ins': Table, b: Block, out: set<Val>)
    requires b < |f.blocks|
  {
    forall c: Block, k: nat {:trigger In(f, ids, ins', c, k)} :: c < |f.blocks| && k < f.blocks[c].StepCount() ==>
      In(f, ids, ins', c, k) ==
      if c != b then In(f, ids, ins, c, k)
      else if f.blocks[b].IsCopyStep(k) then Flow(f, b, k, out)
      else In(f, ids, ins, c, k) + Flow(f, b, k, out)
  }

  lemma VisitedGives(f: Fun, ids: Ids, ins: Table, ins': Table, b: Block, out: set<Val>, k: nat)
    requires f.Valid() && b < |f.blocks| && k < f.blocks[b].StepCount()
    requires Supported(f, ids, ins) && IsJoin(f, ids, ins, b, out) && Visited(f, ids, ins, ins', b, out)
    ensures In(f, ids, ins', b, k) == Flow(f, b, k, out) && In(f, ids, ins, b, k) <= In(f, ids, ins', b, k)
  {
  }

  lemma VisitGrows(f: Fun, ids: Ids, ins: Table, ins': Table, b: Block, out: set<Val>)
    requires f.Valid() && b < |f.blocks|
    requires Supported(f, ids, ins) && IsJoin(f, ids, ins, b, out) && Visited(f, ids, ins, ins', b, out)
    ensures Larger(f, ids, ins, ins')
  {
    forall c: Block, k: nat | c < |f.blocks| && k < f.blocks[c].StepCount()
      ensures In(f, ids, ins, c, k) <= In(f, ids, ins', c, k)
    {
      if c == b {
        VisitedGives(f, ids, ins, ins', b, out, k);
      }
    }
  }

  lemma VisitSupported(f: Fun, ids: Ids, ins: Table, ins': Table, b: Block, out: set<Val>)
    requires f.Valid() && b < |f.blocks|
    requires Supported(f, ids, ins) && IsJoin(f, ids, ins, b, out) && Visited(f, ids, ins, ins', b, out)
    ensures Supported(f, ids, ins')
  {
    hide IsJoin;
    VisitGrows(f, ids, ins, ins', b, out);
    forall c: Block, k: nat, y | c < |f.blocks| && k < f.blocks[c].StepCount() && IsJoin(f, ids, ins', c, y)
      ensures In(f, ids, ins', c, k) <= Flow(f, c, k, y)
    {
      var x := TheJoin(f, ids, ins, c);
      JoinMono(f, ids, ins, ins', c, x, y);
      FlowMono(f, c, k, x, y);
      if c == b {
        JoinUnique(f, ids, ins, b, x, out);
        VisitedGives(f, ids, ins, ins', b, out, k);
      } else {
        assert In(f, ids, ins, c, k) <= Flow(f, c, k, x);
      }
    }
  }

  lemma {:induction false} FlowIsLive(f: Fun, b: Block, k: nat, out: set<Val>)
    requires f.Valid() && b < |f.blocks| && k <= f.blocks[b].StepCount()
    requires forall v :: v in out ==> f.Live(v, b, f.blocks[b].StepCount()) && v in Universe(f, |f.blocks|)
    ensures forall v :: v in Flow(f, b, k, out) ==> f.Live(v, b, k) && v in Universe(f, |f.blocks|)
    decreases f.blocks[b].StepCount() - k
  {
    if k < f.blocks[b].StepCount() {
      FlowIsLive(f, b, k + 1, out);
      forall v | v in Flow(f, b, k, out)
        ensures f.Live(v, b, k) && v in Universe(f, |f.blocks|)
      {
        LiveStep(f, v, b, k);
      }
    }
  }

  lemma VisitSound(f: Fun, ids: Ids, ins: Table, ins': Table, b: Block, out: set<Val>)
    requires f.Valid() && b < |f.blocks| && SoundSets(f, ids, ins)
    requires IsJoin(f, ids, ins, b, out) && Visited(f, ids, ins, ins', b, out)
    ensures SoundSets(f, ids, ins')
  {
    hide Visited, Universe;
    forall v | v in out
      ensures f.Live(v, b, f.blocks[b].StepCount()) && v in Universe(f, |f.blocks|)
    {
      var s: Block :| f.g.Edge(b, s) && s < |f.blocks| && v in In(f, ids, ins, s, 0);
      LiveEdge(f, v, b);
    }
    forall c: Block, k: nat, v | c < |f.blocks| && k < f.blocks[c].StepCount() && v in In(f, ids, ins', c, k)
      ensures f.Live(v, c, k) && v in Universe(f, |f.blocks|)
    {
      VisitedIn(f, ids, ins, ins', b, out, c, k);
      if c == b {
        FlowIsLive(f, b, k, out);
      }
    }
  }

  lemma VisitedIn(f: Fun, ids: Ids, ins: Table, ins': Table, b: Block, out: set<Val>, c: Block, k: nat)
    requires b < |f.blocks| && c < |f.blocks| && k < f.blocks[c].StepCount() && Visited(f, ids, ins, ins', b, out)
    ensures c != b ==> In(f, ids, ins', c, k) == In(f, ids, ins, c, k)
    ensures c == b ==> In(f, ids, ins', c, k) <= In(f, ids, ins, c, k) + Flow(f, b, k, out)
  {
  }

  // ----- one table entry at a time -----

  /** Writing the entry of one step leaves the other steps alone. */
  lemma SetStep(f: Fun, ids: Ids, owner: map<int, Place>, t: Table, b: Block, k: nat, x: set<Val>)
    requires Numbered(f, ids, owner) && b < |f.blocks| && k < f.blocks[b].StepCount()
    ensures forall c: Block, j: nat {:trigger In(f, ids, t[StepId(f, ids, b, k) := x], c, j)} ::
              c < |f.blocks| && j < f.blocks[c].StepCount() ==>
              In(f, ids, t[StepId(f, ids, b, k) := x], c, j) == if c == b && j == k then x else In(f, ids, t, c, j)
  {
    hide Numbered, StepId;
    forall c: Block, j: nat | c < |f.blocks| && j < f.blocks[c].StepCount()
      ensures In(f, ids, t[StepId(f, ids, b, k) := x], c, j) == if c == b && j == k then x else In(f, ids, t, c, j)
    {
      if (c, j) != (b, k) {
        StepIdsDiffer(f, ids, owner, b, k, c, j);
      }
    }
  }

  /** Writing the entry of a further copy touches no step. */
  lemma SetFurtherCopy(f: Fun, ids: Ids, owner: map<int, Place>, t: Table, b: Block, j: nat, x: set<Val>)
    requires Numbered(f, ids, owner) && b < |f.blocks| && 0 < j < |f.blocks[b].copies|
    ensures f.blocks[b].copies[j] in ids.copy
    ensures forall c: Block, k: nat {:trigger In(f, ids, t[ids.copy[f.blocks[b].copies[j]] := x], c, k)} ::
              c < |f.blocks| && k < f.blocks[c].StepCount() ==>
              In(f, ids, t[ids.copy[f.blocks[b].copies[j]] := x], c, k) == In(f, ids, t, c, k)
  {
    hide StepId;
    assert HasCopyId(f, ids, owner, b, j);
    var id := ids.copy[f.blocks[b].copies[j]];
    forall c: Block, k: nat | c < |f.blocks| && k < f.blocks[c].StepCount()
      ensures In(f, ids, t[id := x], c, k) == In(f, ids, t, c, k)
    {
      StepIdOwner(f, ids, owner, c, k);
    }
  }

  /** The steps of `b` from `k` on have been visited. */
  ghost predicate VisitedFrom(f: Fun, ids: Ids, ins: Table, ins': Table, b: Block, out: set<Val>, k: nat)
    requires b < |f.blocks|
  {
    forall c: Block, j: nat {:trigger In(f, ids, ins', c, j)} :: c < |f.blocks| && j < f.blocks[c].StepCount() ==>
      In(f, ids, ins', c, j) ==
      if c != b || j < k then In(f, ids, ins, c, j)
      else if f.blocks[b].IsCopyStep(j) then Flow(f, b, j, out)
      else In(f, ids, ins, c, j) + Flow(f, b, j, out)
  }

  /** The live-out entries of the steps of `b` from `k` on have been set. */
  ghost predicate OutsFrom(f: Fun, ids: Ids, outs: Table, outs': Table, b: Block, out: set<Val>, k: nat)
    requires b < |f.blocks|
  {
    forall c: Block, j: nat {:trigger In(f, ids, outs', c, j)} :: c < |f.blocks| && j < f.blocks[c].StepCount() ==>
      In(f, ids, outs', c, j) == if c != b || j < k then In(f, ids, outs, c, j) else Flow(f, b, j + 1, out)
  }

  /** Some instruction of `b` from step `k` on has gained. */
  ghost predicate Gained(f: Fun, ids: Ids, ins: Table, b: Block, out: set<Val>, k: nat)
    requires b < |f.blocks|
  {
    exists j: nat :: k <= j < f.blocks[b].StepCount() && !f.blocks[b].IsCopyStep(j) &&
                     !(Flow(f, b, j, out) <= In(f, ids, ins, b, j))
  }

  lemma VisitInstr(f: Fun, ids: Ids, owner: map<int, Place>, ins: Table, ins': Table, outs: Table, outs': Table,
                   b: Block, out: set<Val>, k: nat)
    requires Numbered(f, ids, owner) && b < |f.blocks| && k < f.blocks[b].StepCount() && !f.blocks[b].IsCopyStep(k)
    requires VisitedFrom(f, ids, ins, ins', b, out, k + 1) && OutsFrom(f, ids, outs, outs', b, out, k + 1)
    ensures var id := StepId(f, ids, b, k);
            && VisitedFrom(f, ids, ins, ins'[id := At(ins', id) + Flow(f, b, k, out)], b, out, k)
            && OutsFrom(f, ids, outs, outs'[id := Flow(f, b, k + 1, out)], b, out, k)
    ensures Gained(f, ids, ins, b, out, k) <==>
            Gained(f, ids, ins, b, out, k + 1) || !(Flow(f, b, k, out) <= At(ins', StepId(f, ids, b, k)))
  {
    hide Numbered, StepId, Flow;
    var id := StepId(f, ids, b, k);
    SetStep(f, ids, owner, ins', b, k, At(ins', id) + Flow(f, b, k, out));
    SetStep(f, ids, owner, outs', b, k, Flow(f, b, k + 1, out));
    assert In(f, ids, ins', b, k) == In(f, ids, ins, b, k);
  }

  lemma VisitCopies(f: Fun, ids: Ids, owner: map<int, Place>, ins: Table, ins': Table, outs: Table, outs': Table,
                    b: Block, out: set<Val>)
    requires Numbered(f, ids, owner) && b < |f.blocks| && f.blocks[b].copies != []
    requires var k := |f.blocks[b].body|;
             VisitedFrom(f, ids, ins, ins', b, out, k + 1) && OutsFrom(f, ids, outs, outs', b, out, k + 1)
    ensures var k := |f.blocks[b].body|;
            var id := StepId(f, ids, b, k);
            && VisitedFrom(f, ids, ins, ins'[id := Flow(f, b, k, out)], b, out, k)
            && OutsFrom(f, ids, outs, outs'[id := Flow(f, b, k + 1, out)], b, out, k)
            && (Gained(f, ids, ins, b, out, k) <==> Gained(f, ids, ins, b, out, k + 1))
  {
    hide Numbered, StepId, Flow;
    var k := |f.blocks[b].body|;
    SetStep(f, ids, owner, ins', b, k, Flow(f, b, k, out));
    SetStep(f, ids, owner, outs', b, k, Flow(f, b, k + 1, out));
  }

  lemma FurtherCopy(f: Fun, ids: Ids, owner: map<int, Place>, ins: Table, ins': Table, outs: Table, outs': Table,
                    b: Block, out: set<Val>, k: nat, j: nat, x: set<Val>, y: set<Val>)
    requires Numbered(f, ids, owner) && b < |f.blocks| && 0 < j < |f.blocks[b].copies|
    requires VisitedFrom(f, ids, ins, ins', b, out, k) && OutsFrom(f, ids, outs, outs', b, out, k)
    ensures f.blocks[b].copies[j] in ids.copy
    ensures var id := ids.copy[f.blocks[b].copies[j]];
            VisitedFrom(f, ids, ins, ins'[id := x], b, out, k) && OutsFrom(f, ids, outs, outs'[id := y], b, out, k)
  {
    hide Numbered, StepId, Flow;
    SetFurtherCopy(f, ids, owner, ins', b, j, x);
    SetFurtherCopy(f, ids, owner, outs', b, j, y);
  }

  // ----- whole passes -----

  ghost predicate SameIns(f: Fun, ids: Ids, ins: Table, ins': Table) {
    forall c: Block, k: nat {:trigger In(f, ids, ins', c, k)} {:trigger In(f, ids, ins, c, k)} ::
      c < |f.blocks| && k < f.blocks[c].StepCount() ==> In(f, ids, ins', c, k) == In(f, ids, ins, c, k)
  }

  lemma VisitAgrees(f: Fun, ids: Ids, ins: Table, ins': Table, b: Block, out: set<Val>, c: Block)
    requires f.Valid() && b < |f.blocks| && c < |f.blocks|
    requires Supported(f, ids, ins) && IsJoin(f, ids, ins, b, out) && Visited(f, ids, ins, ins', b, out)
    ensures c == b || CopyAgrees(f, ids, ins, c) ==> CopyAgrees(f, ids, ins', c)
  {
    hide IsJoin, Supported, StepId;
    var blk := f.blocks[c];
    if c == b && blk.copies != [] {
      VisitedGives(f, ids, ins, ins', b, out, |blk.body|);
      VisitedGives(f, ids, ins, ins', b, out, |blk.body| + 1);
    }
  }

  /** A visit that gains nothing changes nothing, once the copies agree. */
  lemma VisitIdle(f: Fun, ids: Ids, ins: Table, ins': Table, b: Block, out: set<Val>)
    requires f.Valid() && b < |f.blocks| && Supported(f, ids, ins) && CopyAgrees(f, ids, ins, b)
    requires IsJoin(f, ids, ins, b, out) && Visited(f, ids, ins, ins', b, out) && !Gained(f, ids, ins, b, out, 0)
    ensures SameIns(f, ids, ins, ins')
  {
    var blk := f.blocks[b];
    forall c: Block, k: nat | c < |f.blocks| && k < f.blocks[c].StepCount()
      ensures In(f, ids, ins', c, k) == In(f, ids, ins, c, k)
    {
      if c == b {
        VisitedGives(f, ids, ins, ins', b, out, k);
        if blk.IsCopyStep(k) {
          VisitedGives(f, ids, ins, ins', b, out, k + 1);
          assert Flow(f, b, k + 1, out) <= In(f, ids, ins, b, k + 1);
        }
      }
    }
  }

  /** Once nothing changes, the block just visited is at its fixpoint, and those visited before stay there. */
  lemma SameFixpoint(f: Fun, ids: Ids, ins: Table, ins': Table, outs: Table, outs': Table, b: Block, out: set<Val>,
                     c: Block)
    requires f.Valid() && b < |f.blocks| && c < |f.blocks| && SameIns(f, ids, ins, ins')
    requires Supported(f, ids, ins) && IsJoin(f, ids, ins, b, out) && Visited(f, ids, ins, ins', b, out)
    requires OutsFrom(f, ids, outs, outs', b, out, 0)
    ensures c == b || AtFixpoint(f, ids, ins, outs, c) ==> AtFixpoint(f, ids, ins', outs', c)
  {
    if c == b {
      SameJoin(f, ids, ins, ins', b, out);
      forall k: nat | k < f.blocks[b].StepCount()
        ensures In(f, ids, ins', b, k) == Flow(f, b, k, out)
        ensures At(outs', StepId(f, ids, b, k)) == Flow(f, b, k + 1, out)
      {
        VisitedGives(f, ids, ins, ins', b, out, k);
        assert In(f, ids, outs', b, k) == Flow(f, b, k + 1, out);
      }
    } else if AtFixpoint(f, ids, ins, outs, c) {
      var x :| IsJoin(f, ids, ins, c, x) && Holds(f, ids, ins, outs, c, x);
      SameJoin(f, ids, ins, ins', c, x);
      SameHolds(f, ids, ins, ins', outs, outs', b, out, c, x);
    }
  }

  lemma SameJoin(f: Fun, ids: Ids, ins: Table, ins': Table, b: Block, out: set<Val>)
    requires f.Valid() && b < |f.blocks| && SameIns(f, ids, ins, ins') && IsJoin(f, ids, ins, b, out)
    ensures IsJoin(f, ids, ins', b, out)
  {
    forall s: Block | s < |f.blocks|
      ensures In(f, ids, ins', s, 0) == In(f, ids, ins, s, 0)
    {
    }
  }

  lemma SameHolds(f: Fun, ids: Ids, ins: Table, ins': Table, outs: Table, outs': Table, b: Block, out: set<Val>,
                  c: Block, x: set<Val>)
    requires b < |f.blocks| && c < |f.blocks| && c != b && SameIns(f, ids, ins, ins')
    requires OutsFrom(f, ids, outs, outs', b, out, 0) && Holds(f, ids, ins, outs, c, x)
    ensures Holds(f, ids, ins', outs', c, x)
  {
    forall k: nat | k < f.blocks[c].StepCount()
      ensures In(f, ids, ins', c, k) == Flow(f, c, k, x) && At(outs', StepId(f, ids, c, k)) == Flow(f, c, k + 1, x)
    {
      assert In(f, ids, outs', c, k) == In(f, ids, outs, c, k);
    }
  }

  // ----- a first pass in which nothing is live -----

  /** Nothing is live at any instruction of `b`; its copies, if any, still list their sources. */
  ghost predicate Idle(f: Fun, ids: Ids, ins: Table, outs: Table, b: Block)
    requires b < |f.blocks|
  {
    Holds(f, ids, ins, outs, b, {})
  }

  ghost predicate Untouched(f: Fun, ids: Ids, ins: Table, b: Block)
    requires b < |f.blocks|
  {
    forall k: nat {:trigger In(f, ids, ins, b, k)} :: k < f.blocks[b].StepCount() ==> In(f, ids, ins, b, k) == {}
  }

  /** In the first pass, a visit that gains nothing finds nothing live at the end of the block. */
  lemma FirstVisit(f: Fun, ids: Ids, ins: Table, ins': Table, outs: Table, outs': Table, b: Block, out: set<Val>)
    requires f.Valid() && b < |f.blocks| && Untouched(f, ids, ins, b)
    requires Visited(f, ids, ins, ins', b, out) && !Gained(f, ids, ins, b, out, 0)
    requires OutsFrom(f, ids, outs, outs', b, out, 0)
    ensures out == {} && Idle(f, ids, ins', outs', b)
  {
    var t := f.blocks[b].StepCount() - 1;
    assert Flow(f, b, t, out) <= In(f, ids, ins, b, t);
    assert In(f, ids, ins, b, t) == {};
    assert Flow(f, b, t + 1, out) == out;
    assert out == {};
    forall k: nat | k < f.blocks[b].StepCount()
      ensures In(f, ids, ins', b, k) == Flow(f, b, k, {}) && At(outs', StepId(f, ids, b, k)) == Flow(f, b, k + 1, {})
    {
      assert In(f, ids, ins, b, k) == {};
      assert In(f, ids, outs', b, k) == Flow(f, b, k + 1, out);
    }
  }

  lemma KeptIdle(f: Fun, ids: Ids, ins: Table, ins': Table, outs: Table, outs': Table, b: Block, out: set<Val>,
                 c: Block)
    requires b < |f.blocks| && c < |f.blocks| && c != b && Visited(f, ids, ins, ins', b, out)
    requires OutsFrom(f, ids, outs, outs', b, out, 0)
    ensures Idle(f, ids, ins, outs, c) ==> Idle(f, ids, ins', outs', c)
    ensures Untouched(f, ids, ins, c) ==> Untouched(f, ids, ins', c)
  {
    if Idle(f, ids, ins, outs, c) {
      forall k: nat | k < f.blocks[c].StepCount()
        ensures In(f, ids, ins', c, k) == Flow(f, c, k, {}) && At(outs', StepId(f, ids, c, k)) == Flow(f, c, k + 1, {})
      {
        assert In(f, ids, ins', c, k) == In(f, ids, ins, c, k);
        assert In(f, ids, outs', c, k) == In(f, ids, outs, c, k);
      }
    }
  }

  // ----- the measure, and the result -----

  /** The instructions that a value could still be added to. */
  ghost function Missing(f: Fun, ids: Ids, ins: Table): set<(Block, nat, Val)> {
    set b, k, v | b in Below(|f.blocks|) && k in Below(f.blocks[b].StepCount()) && !f.blocks[b].IsCopyStep(k) &&
                  v in Universe(f, |f.blocks|) && v !in In(f, ids, ins, b, k) :: (b, k, v)
  }

  lemma MissingShrinks(f: Fun, ids: Ids, ins: Table, ins': Table)
    requires Larger(f, ids, ins, ins')
    ensures Missing(f, ids, ins') <= Missing(f, ids, ins)
  {
    forall p | p in Missing(f, ids, ins')
      ensures p in Missing(f, ids, ins)
    {
      assert In(f, ids, ins, p.0, p.1) <= In(f, ids, ins', p.0, p.1);
    }
  }

  lemma MissingLess(f: Fun, ids: Ids, ins: Table, ins': Table, b: Block, out: set<Val>)
    requires f.Valid() && b < |f.blocks| && SoundSets(f, ids, ins') && Gained(f, ids, ins, b, out, 0)
    requires Supported(f, ids, ins) && IsJoin(f, ids, ins, b, out) && Visited(f, ids, ins, ins', b, out)
    ensures Missing(f, ids, ins') < Missing(f, ids, ins)
  {
    hide Supported, IsJoin;
    VisitGrows(f, ids, ins, ins', b, out);
    MissingShrinks(f, ids, ins, ins');
    var k: nat :| k < f.blocks[b].StepCount() && !f.blocks[b].IsCopyStep(k) &&
                  !(Flow(f, b, k, out) <= In(f, ids, ins, b, k));
    var v :| v in Flow(f, b, k, out) && v !in In(f, ids, ins, b, k);
    VisitedGives(f, ids, ins, ins', b, out, k);
    assert v in In(f, ids, ins', b, k);
    assert v in Universe(f, |f.blocks|);
    assert (b, k, v) in Missing(f, ids, ins) && (b, k, v) !in Missing(f, ids, ins');
  }

  /** The tables hold exactly the live values. */
  ghost predicate Exact(f: Fun, ids: Ids, ins: Table, outs: Table)
    requires f.Valid()
  {
    forall b: Block, k: nat, v :: b < |f.blocks| && k < f.blocks[b].StepCount() ==>
      && (v in In(f, ids, ins, b, k) <==> f.Live(v, b, k))
      && (v in At(outs, StepId(f, ids, b, k)) <==> f.Live(v, b, k + 1))
  }

  /** The guess that the tables make about liveness. */
  ghost function Guess(f: Fun, ids: Ids, ins: Table): (Block, nat) -> set<Val>
    requires f.Valid()
  {
    (b: Block, k: nat) =>
      if b < |f.blocks| && k < f.blocks[b].StepCount() then In(f, ids, ins, b, k)
      else if b < |f.blocks| then TheJoin(f, ids, ins, b)
      else {}
  }

  lemma GuessSolves(f: Fun, ids: Ids, ins: Table, outs: Table)
    requires f.Valid() && forall b: Block :: b < |f.blocks| ==> AtFixpoint(f, ids, ins, outs, b)
    ensures Solves(f, Guess(f, ids, ins))
  {
    var x := Guess(f, ids, ins);
    forall b: Block, k: nat | b < |f.blocks| && k < f.blocks[b].StepCount()
      ensures f.blocks[b].Uses(k) + (x(b, k + 1) - f.blocks[b].Defs(k)) <= x(b, k)
    {
      assert AtFixpoint(f, ids, ins, outs, b);
      var out :| IsJoin(f, ids, ins, b, out) && Holds(f, ids, ins, outs, b, out);
      JoinUnique(f, ids, ins, b, out, TheJoin(f, ids, ins, b));
      assert In(f, ids, ins, b, k) == Flow(f, b, k, out);
      if k + 1 < f.blocks[b].StepCount() {
        assert In(f, ids, ins, b, k + 1) == Flow(f, b, k + 1, out);
      }
      assert x(b, k) == Flow(f, b, k, out) && x(b, k + 1) == Flow(f, b, k + 1, out);
    }
    forall b: Block, s: Block | b < |f.blocks| && s < |f.blocks| && f.g.Edge(b, s)
      ensures x(s, 0) <= x(b, f.blocks[b].StepCount())
    {
      assert IsJoin(f, ids, ins, b, TheJoin(f, ids, ins, b));
    }
  }

  lemma FixpointIsExact(f: Fun, ids: Ids, ins: Table, outs: Table)
    requires f.Valid() && SoundSets(f, ids, ins)
    requires forall b: Block :: b < |f.blocks| ==> AtFixpoint(f, ids, ins, outs, b)
    ensures Exact(f, ids, ins, outs)
  {
    hide AtFixpoint, SoundSets;
    GuessSolves(f, ids, ins, outs);
    forall b: Block, k: nat, v | b < |f.blocks| && k < f.blocks[b].StepCount()
      ensures v in In(f, ids, ins, b, k) <==> f.Live(v, b, k)
      ensures v in At(outs, StepId(f, ids, b, k)) <==> f.Live(v, b, k + 1)
    {
      ExactIn(f, ids, ins, b, k, v);
      ExactOut(f, ids, ins, outs, b, k, v);
    }
  }

  lemma ExactIn(f: Fun, ids: Ids, ins: Table, b: Block, k: nat, v: Val)
    requires f.Valid() && SoundSets(f, ids, ins) && Solves(f, Guess(f, ids, ins))
    requires b < |f.blocks| && k < f.blocks[b].StepCount()
    ensures v in In(f, ids, ins, b, k) <==> f.Live(v, b, k)
  {
    hide Solves, IsJoin;
    if f.Live(v, b, k) {
      var n: nat :| f.LiveWithin(v, b, k, n);
      LiveIsLeast(f, Guess(f, ids, ins), v, b, k, n);
    }
  }

  lemma ExactOut(f: Fun, ids: Ids, ins: Table, outs: Table, b: Block, k: nat, v: Val)
    requires f.Valid() && SoundSets(f, ids, ins) && Solves(f, Guess(f, ids, ins))
    requires b < |f.blocks| && k < f.blocks[b].StepCount() && AtFixpoint(f, ids, ins, outs, b)
    ensures v in At(outs, StepId(f, ids, b, k)) <==> f.Live(v, b, k + 1)
  {
    hide Solves, SoundSets;
    var out :| IsJoin(f, ids, ins, b, out) && Holds(f, ids, ins, outs, b, out);
    assert At(outs, StepId(f, ids, b, k)) == Flow(f, b, k + 1, out);
    if k + 1 < f.blocks[b].StepCount() {
      assert In(f, ids, ins, b, k + 1) == Flow(f, b, k + 1, out);
      ExactIn(f, ids, ins, b, k + 1, v);
    } else {
      LiveEdge(f, v, b);
      forall s: Block | f.g.Edge(b, s) && s < |f.blocks|
        ensures v in In(f, ids, ins, s, 0) <==> f.Live(v, s, 0)
      {
        ExactIn(f, ids, ins, s, 0, v);
      }
    }
  }
}
