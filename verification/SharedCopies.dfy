/** Copies go by the pair of their phi and their source. What that means for liveness when two blocks have a copy in
    common. */
module SharedCopies {
  import opened Basics
  import opened Graphs
  import opened Lowered
  import opened LiveSets
  import opened Liverange
  import opened Numbering

  /** Only if each pair of a phi and a source is copied in one place can every copy have a number of its own. */
  lemma NumberedNeedsDistinct(f: Fun, ids: Ids, owner: map<int, Place>)
    requires Numbered(f, ids, owner)
    ensures CopiesDistinct(f)
  {
    forall b: Block, j: nat, b': Block, j': nat |
      b < |f.blocks| && j < |f.blocks[b].copies| && b' < |f.blocks| && j' < |f.blocks[b'].copies| &&
      f.blocks[b].copies[j] == f.blocks[b'].copies[j']
      ensures b == b' && j == j'
    {
      assert HasCopyId(f, ids, owner, b, j);
      assert HasCopyId(f, ids, owner, b', j');
    }
  }

  /** Otherwise two blocks that begin with the same copy share an entry, and tables can be exact only if the same
      values are live at both. */
  lemma SharedCopyBlurs(f: Fun, ids: Ids, ins: Table, outs: Table, b: Block, b': Block, v: Val)
    requires f.Valid() && Exact(f, ids, ins, outs) && b < |f.blocks| && b' < |f.blocks|
    requires f.blocks[b].copies != [] && f.blocks[b'].copies != [] && f.blocks[b].copies[0] == f.blocks[b'].copies[0]
    ensures f.Live(v, b, |f.blocks[b].body|) <==> f.Live(v, b', |f.blocks[b'].body|)
    ensures f.Live(v, b, |f.blocks[b].body| + 1) <==> f.Live(v, b', |f.blocks[b'].body| + 1)
  {
    var k, k' := |f.blocks[b].body|, |f.blocks[b'].body|;
    assert In(f, ids, ins, b, k) == In(f, ids, ins, b', k');
    assert v in In(f, ids, ins, b, k) <==> f.Live(v, b, k);
    assert v in In(f, ids, ins, b', k') <==> f.Live(v, b', k');
  }

  // ----- when tables exist -----

  /** Instructions and pairs have numbers that tell them apart. */
  ghost predicate Keyed(f: Fun, ids: Ids) {
    && (forall b: Block, k: nat :: b < |f.blocks| && k <= |f.blocks[b].body| ==> (b, k) in ids.instr)
    && (forall b: Block, j: nat :: b < |f.blocks| && j < |f.blocks[b].copies| ==> f.blocks[b].copies[j] in ids.copy)
    && (forall x, y :: x in ids.instr && y in ids.instr && ids.instr[x] == ids.instr[y] ==> x == y)
    && (forall x, y :: x in ids.copy && y in ids.copy && ids.copy[x] == ids.copy[y] ==> x == y)
    && (forall x, y :: x in ids.instr && y in ids.copy ==> ids.instr[x] != ids.copy[y])
  }

  /** Blocks that begin with the same copy have the same values live before their copies, and after them. */
  ghost predicate SharersAgree(f: Fun)
    requires |f.blocks| == f.g.Size()
  {
    forall b: Block, b': Block :: b < |f.blocks| && b' < |f.blocks| && SameFirstCopy(f.blocks[b], f.blocks[b']) ==>
      AgreeAt(f, b, |f.blocks[b].body|, b', |f.blocks[b'].body|)
  }

  predicate SameFirstCopy(x: LBlock, y: LBlock) {
    x.copies != [] && y.copies != [] && x.copies[0] == y.copies[0]
  }

  /** The same values are live before the two steps, and after them. */
  ghost predicate AgreeAt(f: Fun, b: Block, k: nat, b': Block, k': nat)
    requires |f.blocks| == f.g.Size()
  {
    forall v :: (f.Live(v, b, k) <==> f.Live(v, b', k')) && (f.Live(v, b, k + 1) <==> f.Live(v, b', k' + 1))
  }

  /** Steps with the same number are one step, or two that begin with the same copy. */
  lemma SameStepId(f: Fun, ids: Ids, b: Block, k: nat, b': Block, k': nat)
    requires |f.blocks| == f.g.Size() && Keyed(f, ids) && SharersAgree(f)
    requires b < |f.blocks| && k < f.blocks[b].StepCount() && b' < |f.blocks| && k' < f.blocks[b'].StepCount()
    requires StepId(f, ids, b, k) == StepId(f, ids, b', k')
    ensures AgreeAt(f, b, k, b', k')
  {
    var x, y := f.blocks[b], f.blocks[b'];
    NumberGiven(f, ids, b, k);
    NumberGiven(f, ids, b', k');
    if x.IsCopyStep(k) && y.IsCopyStep(k') {
      assert SameFirstCopy(x, y);
      assert AgreeAt(f, b, |x.body|, b', |y.body|);
    }
  }

  lemma NumberGiven(f: Fun, ids: Ids, b: Block, k: nat)
    requires Keyed(f, ids) && b < |f.blocks| && k < f.blocks[b].StepCount()
    ensures var x := f.blocks[b];
            if x.IsCopyStep(k) then x.copies[0] in ids.copy else (b, if k < |x.body| then k else |x.body|) in ids.instr
  {
  }

  lemma {:induction false} LiveInUniverse(f: Fun, v: Val, b: Block, k: nat, n: nat)
    requires |f.blocks| == f.g.Size() && f.LiveWithin(v, b, k, n)
    ensures v in Universe(f, |f.blocks|)
    decreases n
  {
    if k < f.blocks[b].StepCount() {
      if v !in f.blocks[b].Uses(k) {
        LiveInUniverse(f, v, b, k + 1, n - 1);
      }
    } else {
      var s: Block :| f.g.Edge(b, s) && f.LiveWithin(v, s, 0, n - 1);
      LiveInUniverse(f, v, s, 0, n - 1);
    }
  }

  ghost function LiveSet(f: Fun, b: Block, k: nat): (r: set<Val>)
    requires |f.blocks| == f.g.Size()
    ensures forall v :: v in r <==> f.Live(v, b, k)
  {
    var r := set v | v in Universe(f, |f.blocks|) && f.Live(v, b, k);
    assert forall v :: f.Live(v, b, k) ==> v in r by {
      forall v | f.Live(v, b, k)
        ensures v in r
      {
        var n: nat :| f.LiveWithin(v, b, k, n);
        LiveInUniverse(f, v, b, k, n);
      }
    }
    r
  }

  ghost function StepIds(f: Fun, ids: Ids): set<int> {
    set b, k | 0 <= b < |f.blocks| && 0 <= k < f.blocks[b].StepCount() :: StepId(f, ids, b, k)
  }

  ghost function StepWith(f: Fun, ids: Ids, id: int): (s: (Block, nat))
    requires id in StepIds(f, ids)
    ensures s.0 < |f.blocks| && s.1 < f.blocks[s.0].StepCount() && StepId(f, ids, s.0, s.1) == id
  {
    var b: Block, k: nat :| b < |f.blocks| && k < f.blocks[b].StepCount() && StepId(f, ids, b, k) == id;
    (b, k)
  }

  /** What is live before the steps, or `later` steps on, by number. */
  ghost function LiveTable(f: Fun, ids: Ids, later: nat): Table
    requires |f.blocks| == f.g.Size()
  {
    map id | id in StepIds(f, ids) :: LiveSet(f, StepWith(f, ids, id).0, StepWith(f, ids, id).1 + later)
  }

  lemma TablesExist(f: Fun, ids: Ids)
    requires f.Valid() && Keyed(f, ids) && SharersAgree(f)
    ensures Exact(f, ids, LiveTable(f, ids, 0), LiveTable(f, ids, 1))
  {
    hide Fun.Live, Keyed, SharersAgree, LiveTable, StepId, At;
    forall b: Block, k: nat, v | b < |f.blocks| && k < f.blocks[b].StepCount()
      ensures v in In(f, ids, LiveTable(f, ids, 0), b, k) <==> f.Live(v, b, k)
      ensures v in At(LiveTable(f, ids, 1), StepId(f, ids, b, k)) <==> f.Live(v, b, k + 1)
    {
      var id := StepId(f, ids, b, k);
      assert id in StepIds(f, ids);
      var s := StepWith(f, ids, id);
      SameStepId(f, ids, b, k, s.0, s.1);
      EntryOf(f, ids, 0, id);
      EntryOf(f, ids, 1, id);
    }
  }

  lemma EntryOf(f: Fun, ids: Ids, later: nat, id: int)
    requires |f.blocks| == f.g.Size() && id in StepIds(f, ids)
    ensures var s := StepWith(f, ids, id); At(LiveTable(f, ids, later), id) == LiveSet(f, s.0, s.1 + later)
  {
  }

  /** Tables keyed by pairs can hold the liveness of a function if and only if blocks that begin with the same copy have
      the same values live around their copies. */
  lemma TablesExistIff(f: Fun, ids: Ids)
    requires f.Valid() && Keyed(f, ids)
    ensures (exists ins, outs :: Exact(f, ids, ins, outs)) <==> SharersAgree(f)
  {
    hide Fun.Live, Keyed, StepId;
    if SharersAgree(f) {
      TablesExist(f, ids);
    }
    if ins, outs :| Exact(f, ids, ins, outs) {
      forall b: Block, b': Block | b < |f.blocks| && b' < |f.blocks| && SameFirstCopy(f.blocks[b], f.blocks[b'])
        ensures AgreeAt(f, b, |f.blocks[b].body|, b', |f.blocks[b'].body|)
      {
        forall v
          ensures f.Live(v, b, |f.blocks[b].body|) <==> f.Live(v, b', |f.blocks[b'].body|)
          ensures f.Live(v, b, |f.blocks[b].body| + 1) <==> f.Live(v, b', |f.blocks[b'].body| + 1)
        {
          SharedCopyBlurs(f, ids, ins, outs, b, b', v);
        }
      }
    }
  }

  // ----- an example -----

  /** A diamond whose arms, blocks 1 and 2, give its first phi the same source and its second one different sources. */
  function SharingDiamond(): Fun {
    Fun(Cfg([[1, 2], [3], [3], []], [[], [0], [0], [1, 2]]),
        [LBlock([], [], Ins(None, [Reg(0)])),
         LBlock([], [(3, Reg(0)), (4, Reg(1))], Ins(None, [])),
         LBlock([], [(3, Reg(0)), (4, Reg(2))], Ins(None, [])),
         LBlock([], [], Ins(None, [Reg(3), Reg(4)]))],
        {0, 1, 2})
  }

  /** Nothing that the tables could hold is right for it. */
  lemma NoTablesForDiamond(ids: Ids, ins: Table, outs: Table)
    ensures SharingDiamond().Valid() && !Exact(SharingDiamond(), ids, ins, outs)
  {
    DiamondValid();
    DiamondLive();
    if Exact(SharingDiamond(), ids, ins, outs) {
      SharedCopyBlurs(SharingDiamond(), ids, ins, outs, 1, 2, 1);
    }
  }

  lemma DiamondLive()
    ensures SharingDiamond().Live(1, 1, 0) && !SharingDiamond().Live(1, 2, 0)
  {
    var f := SharingDiamond();
    LiveStep(f, 1, 1, 0);
    LiveStep(f, 1, 2, 0);
    LiveStep(f, 1, 2, 1);
    LiveEdge(f, 1, 2);
    LiveStep(f, 1, 3, 0);
    LiveEdge(f, 1, 3);
  }

  lemma DiamondValid()
    ensures SharingDiamond().Valid()
  {
    var g := SharingDiamond().g;
    assert g.PathTo([0], 0);
    PathExtend(g, [0], 0, 1);
    PathExtend(g, [0], 0, 2);
    PathExtend(g, [0] + [1], 1, 3);
  }
}
