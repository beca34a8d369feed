/** The order of the liveness numbers, and what it means for the intervals of copied values. */
module Numbering {
  import opened Graphs
  import opened Lowered
  import opened LiveSets
  import opened LivePositions

  /** Each (phi, source) pair is copied in one place only, so it can stand for its copy. */
  ghost predicate CopiesDistinct(f: Fun) {
    forall b: Block, j: nat, b': Block, j': nat {:trigger f.blocks[b].copies[j], f.blocks[b'].copies[j']} ::
      b < |f.blocks| && j < |f.blocks[b].copies| && b' < |f.blocks| && j' < |f.blocks[b'].copies| ==>
        f.blocks[b].copies[j] == f.blocks[b'].copies[j'] ==> b == b' && j == j'
  }

  /** The instructions and copies of a block. */
  function CountOf(f: Fun, b: Block): nat {
    if b < |f.blocks| then |f.blocks[b].body| + |f.blocks[b].copies| + 1 else 0
  }

  /** The number after those of the first `i` blocks; 0 is left to the arguments. */
  function FirstNumber(f: Fun, order: seq<Block>, i: nat): nat
    requires i <= |order|
  {
    if i == 0 then 1 else FirstNumber(f, order, i - 1) + CountOf(f, order[i - 1])
  }

  /** From `first` on, without gaps: the first `kk` instructions, and the first `jj` copies right before the terminator. */
  ghost predicate RunUpTo(f: Fun, ids: Ids, b: Block, first: nat, kk: nat, jj: nat) {
    && b < |f.blocks|
    && (forall k: nat :: k < kk && k <= |f.blocks[b].body| ==> InstrNumber(f, ids, b, k, first))
    && (forall j: nat :: j < jj && j < |f.blocks[b].copies| ==> CopyNumber(f, ids, b, j, first))
  }

  predicate InstrNumber(f: Fun, ids: Ids, b: Block, k: nat, first: nat)
    requires b < |f.blocks|
  {
    (b, k) in ids.instr &&
    ids.instr[(b, k)] == first + k + if k == |f.blocks[b].body| then |f.blocks[b].copies| else 0
  }

  predicate CopyNumber(f: Fun, ids: Ids, b: Block, j: nat, first: nat)
    requires b < |f.blocks| && j < |f.blocks[b].copies|
  {
    var c := f.blocks[b].copies[j];
    c in ids.copy && ids.copy[c] == first + |f.blocks[b].body| + j
  }

  ghost predicate BlockRun(f: Fun, ids: Ids, b: Block, first: nat) {
    b < |f.blocks| && RunUpTo(f, ids, b, first, |f.blocks[b].body| + 1, |f.blocks[b].copies|)
  }

  ghost predicate RunsUpTo(f: Fun, ids: Ids, order: seq<Block>, i: nat)
    requires i <= |order|
  {
    forall l: nat {:trigger FirstNumber(f, order, l)} :: l < i ==> BlockRun(f, ids, order[l], FirstNumber(f, order, l))
  }

  /** The numbers follow execution: block after block in the given order, in each block the body, the copies in their
      order, and the terminator. */
  ghost predicate InExecutionOrder(f: Fun, ids: Ids, order: seq<Block>) {
    RunsUpTo(f, ids, order, |order|)
  }

  lemma RunKeptInstr(f: Fun, ids: Ids, c: Block, first: nat, kk: nat, jj: nat, b: Block, k: nat, n: int)
    requires RunUpTo(f, ids, c, first, kk, jj) && (c != b || kk <= k)
    ensures RunUpTo(f, ids.(instr := ids.instr[(b, k) := n]), c, first, kk, jj)
  {
    var ids' := ids.(instr := ids.instr[(b, k) := n]);
    forall l: nat | l < kk && l <= |f.blocks[c].body|
      ensures InstrNumber(f, ids', c, l, first)
    {
      assert InstrNumber(f, ids, c, l, first);
    }
    forall j: nat | j < jj && j < |f.blocks[c].copies|
      ensures CopyNumber(f, ids', c, j, first)
    {
      assert CopyNumber(f, ids, c, j, first);
    }
  }

  lemma RunKeptCopy(f: Fun, ids: Ids, c: Block, first: nat, kk: nat, jj: nat, b: Block, j: nat, n: int)
    requires CopiesDistinct(f) && b < |f.blocks| && j < |f.blocks[b].copies|
    requires RunUpTo(f, ids, c, first, kk, jj) && (c != b || jj <= j)
    ensures RunUpTo(f, ids.(copy := ids.copy[f.blocks[b].copies[j] := n]), c, first, kk, jj)
  {
    var ids' := ids.(copy := ids.copy[f.blocks[b].copies[j] := n]);
    forall k: nat | k < kk && k <= |f.blocks[c].body|
      ensures InstrNumber(f, ids', c, k, first)
    {
      assert InstrNumber(f, ids, c, k, first);
    }
    forall l: nat | l < jj && l < |f.blocks[c].copies|
      ensures CopyNumber(f, ids', c, l, first)
    {
      assert CopyNumber(f, ids, c, l, first);
      assert f.blocks[c].copies[l] == f.blocks[b].copies[j] ==> c == b && l == j;
    }
  }

  /** One more instruction of the `i`-th block. */
  lemma RunInstr(f: Fun, ids: Ids, order: seq<Block>, i: nat, k: nat, jj: nat, n: int)
    requires i < |order| && order[i] < |f.blocks| && k <= |f.blocks[order[i]].body|
    requires forall l :: 0 <= l < i ==> order[l] != order[i]
    requires RunsUpTo(f, ids, order, i) && RunUpTo(f, ids, order[i], FirstNumber(f, order, i), k, jj)
    requires n == FirstNumber(f, order, i) + k + if k == |f.blocks[order[i]].body| then |f.blocks[order[i]].copies| else 0
    ensures var ids' := ids.(instr := ids.instr[(order[i], k) := n]);
            && RunsUpTo(f, ids', order, i) && RunUpTo(f, ids', order[i], FirstNumber(f, order, i), k + 1, jj)
  {
    hide RunUpTo;
    var ids' := ids.(instr := ids.instr[(order[i], k) := n]);
    forall l: nat | l < i
      ensures BlockRun(f, ids', order[l], FirstNumber(f, order, l))
    {
      assert BlockRun(f, ids, order[l], FirstNumber(f, order, l));
      RunKeptInstr(f, ids, order[l], FirstNumber(f, order, l), |f.blocks[order[l]].body| + 1, |f.blocks[order[l]].copies|,
                   order[i], k, n);
    }
    RunKeptInstr(f, ids, order[i], FirstNumber(f, order, i), k, jj, order[i], k, n);
    RunMore(f, ids', order[i], FirstNumber(f, order, i), k, jj);
  }

  lemma RunMore(f: Fun, ids: Ids, b: Block, first: nat, kk: nat, jj: nat)
    requires RunUpTo(f, ids, b, first, kk, jj)
    ensures kk <= |f.blocks[b].body| && InstrNumber(f, ids, b, kk, first) ==> RunUpTo(f, ids, b, first, kk + 1, jj)
    ensures jj < |f.blocks[b].copies| && CopyNumber(f, ids, b, jj, first) ==> RunUpTo(f, ids, b, first, kk, jj + 1)
  {
  }

  /** One more copy of the `i`-th block. */
  lemma RunCopy(f: Fun, ids: Ids, order: seq<Block>, i: nat, kk: nat, j: nat, n: int)
    requires CopiesDistinct(f) && i < |order| && order[i] < |f.blocks| && j < |f.blocks[order[i]].copies|
    requires forall l :: 0 <= l < i ==> order[l] != order[i]
    requires RunsUpTo(f, ids, order, i) && RunUpTo(f, ids, order[i], FirstNumber(f, order, i), kk, j)
    requires n == FirstNumber(f, order, i) + |f.blocks[order[i]].body| + j
    ensures var ids' := ids.(copy := ids.copy[f.blocks[order[i]].copies[j] := n]);
            && RunsUpTo(f, ids', order, i) && RunUpTo(f, ids', order[i], FirstNumber(f, order, i), kk, j + 1)
  {
    hide RunUpTo, CopiesDistinct;
    var ids' := ids.(copy := ids.copy[f.blocks[order[i]].copies[j] := n]);
    forall l: nat | l < i
      ensures BlockRun(f, ids', order[l], FirstNumber(f, order, l))
    {
      assert BlockRun(f, ids, order[l], FirstNumber(f, order, l));
      RunKeptCopy(f, ids, order[l], FirstNumber(f, order, l), |f.blocks[order[l]].body| + 1, |f.blocks[order[l]].copies|,
                  order[i], j, n);
    }
    RunKeptCopy(f, ids, order[i], FirstNumber(f, order, i), kk, j, order[i], j, n);
    RunMore(f, ids', order[i], FirstNumber(f, order, i), kk, j);
  }

  lemma NoRuns(f: Fun, ids: Ids, order: seq<Block>)
    ensures RunsUpTo(f, ids, order, 0)
  {
  }

  lemma RunStarts(f: Fun, ids: Ids, b: Block, first: nat)
    requires b < |f.blocks|
    ensures RunUpTo(f, ids, b, first, 0, 0)
  {
  }

  lemma RunDone(f: Fun, ids: Ids, order: seq<Block>, i: nat)
    requires i < |order| && order[i] < |f.blocks| && RunsUpTo(f, ids, order, i)
    requires RunUpTo(f, ids, order[i], FirstNumber(f, order, i), |f.blocks[order[i]].body| + 1, |f.blocks[order[i]].copies|)
    ensures RunsUpTo(f, ids, order, i + 1)
    ensures FirstNumber(f, order, i + 1) == FirstNumber(f, order, i) + |f.blocks[order[i]].body| + |f.blocks[order[i]].copies| + 1
  {
    hide RunUpTo;
  }

  // ----- what follows -----

  /** The number of a place, in the run of its block. */
  lemma NumberOfPlace(f: Fun, ids: Ids, order: seq<Block>, i: nat, pl: Place)
    requires InExecutionOrder(f, ids, order) && i < |order| && IsPlace(f, pl) && pl.b == order[i]
    ensures var first, blk := FirstNumber(f, order, i), f.blocks[pl.b];
            PlaceId(f, ids, pl) == match pl
                                   case InstrAt(_, k) => first + k + (if k == |blk.body| then |blk.copies| else 0)
                                   case CopyAt(_, j) => first + |blk.body| + j
    ensures FirstNumber(f, order, i) <= PlaceId(f, ids, pl) < FirstNumber(f, order, i + 1)
  {
    var b, first := order[i], FirstNumber(f, order, i);
    assert BlockRun(f, ids, b, first);
    match pl
    case InstrAt(_, k) => assert InstrNumber(f, ids, b, k, first);
    case CopyAt(_, j) => assert CopyNumber(f, ids, b, j, first);
  }

  lemma {:induction false} FirstsGrow(f: Fun, order: seq<Block>, i: nat, l: nat)
    requires i <= l <= |order|
    ensures FirstNumber(f, order, i) <= FirstNumber(f, order, l)
    decreases l
  {
    if i < l {
      FirstsGrow(f, order, i, l - 1);
    }
  }

  /** Steps of a block are numbered as they are executed, and blocks as they are listed. */
  lemma StepsInOrder(f: Fun, ids: Ids, order: seq<Block>, i: nat, k: nat, i': nat, k': nat)
    requires InExecutionOrder(f, ids, order) && i < |order| && i' < |order|
    requires order[i] < |f.blocks| && k < f.blocks[order[i]].StepCount()
    requires order[i'] < |f.blocks| && k' < f.blocks[order[i']].StepCount()
    requires i < i' || (i == i' && k < k')
    ensures StepId(f, ids, order[i], k) < StepId(f, ids, order[i'], k')
  {
    hide InExecutionOrder;
    StepPlace(f, ids, order, i, k);
    StepPlace(f, ids, order, i', k');
    if i < i' {
      FirstsGrow(f, order, i + 1, i');
    }
  }

  lemma StepPlace(f: Fun, ids: Ids, order: seq<Block>, i: nat, k: nat)
    requires InExecutionOrder(f, ids, order) && i < |order|
    requires order[i] < |f.blocks| && k < f.blocks[order[i]].StepCount()
    ensures var first, blk := FirstNumber(f, order, i), f.blocks[order[i]];
            && StepId(f, ids, order[i], k) == first + k + (if k > |blk.body| then |blk.copies| - 1 else 0)
            && StepId(f, ids, order[i], k) < FirstNumber(f, order, i + 1)
  {
    hide InExecutionOrder;
    var b := order[i];
    var blk := f.blocks[b];
    NumberOfPlace(f, ids, order, i, if blk.IsCopyStep(k) then CopyAt(b, 0)
                                    else InstrAt(b, if k < |blk.body| then k else |blk.body|));
    assert blk.copies == [] ==> k <= |blk.body|;
  }

  /** `v` is read by the copies of `b` for the last time and lives in `b` only. */
  ghost predicate EndsAtCopies(f: Fun, v: Val, b: Block)
    requires f.Valid() && b < |f.blocks|
  {
    && v !in f.args && f.Live(v, b, |f.blocks[b].body|)
    && forall c: Block, k: nat :: c < |f.blocks| && k <= f.blocks[c].StepCount() && f.Live(v, c, k) ==>
         c == b && k <= |f.blocks[b].body|
  }

  /** `w` lives from the copies of the `i`-th block on, in this block and later ones. */
  ghost predicate StartsAtCopies(f: Fun, w: Val, order: seq<Block>, i: nat)
    requires f.Valid() && i < |order| && order[i] < |f.blocks|
  {
    && w !in f.args && f.Live(w, order[i], |f.blocks[order[i]].body| + 1)
    && forall c: Block, k: nat :: c < |f.blocks| && k <= f.blocks[c].StepCount() && f.Live(w, c, k) ==>
         (c == order[i] && k > |f.blocks[c].body|) || exists l :: i < l < |order| && order[l] == c
  }

  /** A source whose last use is in the copies ends before the last of them, and a target begins after the first. So
      the two intervals are apart, and may share a register, exactly if there is only one copy. */
  lemma CopyApartIff(f: Fun, ids: Ids, owner: map<int, Place>, order: seq<Block>, m: IntervalMap, i: nat, v: Val, w: Val)
    requires f.Valid() && Numbered(f, ids, owner) && ExactIntervals(f, ids, m) && InExecutionOrder(f, ids, order)
    requires i < |order| && order[i] < |f.blocks| && f.blocks[order[i]].copies != []
    requires EndsAtCopies(f, v, order[i]) && StartsAtCopies(f, w, order, i)
    ensures v in m && w in m
    ensures var copies := f.blocks[order[i]].copies;
            && m[v].end == 2 * PlaceId(f, ids, CopyAt(order[i], |copies| - 1)) - 1
            && m[w].start == 2 * PlaceId(f, ids, CopyAt(order[i], 0))
            && (m[v].end < m[w].start <==> |copies| == 1)
            && m[v].start < m[w].end
  {
    hide InExecutionOrder, Numbered, EndsAtCopies, StartsAtCopies, LiveAtPos, PlaceId;
    var b := order[i];
    var last, first := CopyAt(b, |f.blocks[b].copies| - 1), CopyAt(b, 0);
    NumberOfPlace(f, ids, order, i, last);
    NumberOfPlace(f, ids, order, i, first);
    SourceAtCopy(f, ids, v, b, last);
    SourceAtCopy(f, ids, v, b, first);
    TargetAtCopy(f, ids, order, i, w, first);
    EndsThere(f, ids, order, i, v, m[v].end);
    StartsThere(f, ids, order, i, w, m[w].start);
  }

  lemma SourceAtCopy(f: Fun, ids: Ids, v: Val, b: Block, pl: Place)
    requires f.Valid() && b < |f.blocks| && EndsAtCopies(f, v, b) && IsPlace(f, pl) && pl.CopyAt? && pl.b == b
    ensures LiveAtPos(f, ids, v, 2 * PlaceId(f, ids, pl) - 1)
  {
    assert LiveAround(f, ids, v, 2 * PlaceId(f, ids, pl) - 1, pl);
  }

  lemma TargetAtCopy(f: Fun, ids: Ids, order: seq<Block>, i: nat, w: Val, pl: Place)
    requires f.Valid() && i < |order| && order[i] < |f.blocks| && StartsAtCopies(f, w, order, i)
    requires IsPlace(f, pl) && pl.CopyAt? && pl.b == order[i]
    ensures LiveAtPos(f, ids, w, 2 * PlaceId(f, ids, pl))
  {
    assert LiveAround(f, ids, w, 2 * PlaceId(f, ids, pl), pl);
  }

  lemma EndsThere(f: Fun, ids: Ids, order: seq<Block>, i: nat, v: Val, p: int)
    requires f.Valid() && InExecutionOrder(f, ids, order)
    requires i < |order| && order[i] < |f.blocks| && f.blocks[order[i]].copies != []
    requires EndsAtCopies(f, v, order[i]) && LiveAtPos(f, ids, v, p)
    ensures p <= 2 * PlaceId(f, ids, CopyAt(order[i], |f.blocks[order[i]].copies| - 1)) - 1
  {
    hide InExecutionOrder;
    var pl: Place :| IsPlace(f, pl) && LiveAround(f, ids, v, p, pl);
    assert pl.b == order[i];
    NumberOfPlace(f, ids, order, i, pl);
    NumberOfPlace(f, ids, order, i, CopyAt(order[i], |f.blocks[order[i]].copies| - 1));
  }

  lemma StartsThere(f: Fun, ids: Ids, order: seq<Block>, i: nat, w: Val, p: int)
    requires f.Valid() && InExecutionOrder(f, ids, order)
    requires i < |order| && order[i] < |f.blocks| && f.blocks[order[i]].copies != []
    requires StartsAtCopies(f, w, order, i) && LiveAtPos(f, ids, w, p)
    ensures p >= 2 * PlaceId(f, ids, CopyAt(order[i], 0))
  {
    hide InExecutionOrder;
    var pl: Place :| IsPlace(f, pl) && LiveAround(f, ids, w, p, pl);
    NumberOfPlace(f, ids, order, i, CopyAt(order[i], 0));
    var before := p == 2 * PlaceId(f, ids, pl) - 1 && f.Live(w, pl.b, StepOf(f, pl));
    var k := if before then StepOf(f, pl) else StepOf(f, pl) + 1;
    assert f.Live(w, pl.b, k);
    if pl.b == order[i] && k > |f.blocks[pl.b].body| {
      NumberOfPlace(f, ids, order, i, pl);
    } else {
      var l :| i < l < |order| && order[l] == pl.b;
      NumberOfPlace(f, ids, order, l, pl);
      FirstsGrow(f, order, i + 1, l);
    }
  }
}
