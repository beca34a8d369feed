/** From liveness and linear scan to code that keeps values in registers: liveness intervals cover every point where
    two values must not share a register. */
module RegisterAssignment {
  import opened Graphs
  import opened Lowered
  import opened LiveSets
  import opened LivePositions
  import opened Numbering
  import opened Intervals
  import opened RegisterRun
  import Liverange
  import Regalloc

  ghost predicate DefinedAt(f: Fun, b: Block, k: nat, d: Val) {
    b < |f.blocks| && k < f.blocks[b].StepCount() && d in f.blocks[b].Defs(k)
  }

  /** Copies stand at the end of blocks that can only go on to block `c`, and whose terminators read no value. */
  ghost predicate OnlyLeadsTo(f: Fun, b: Block, c: Block)
    requires b < |f.blocks|
  {
    f.g.Edge(b, c) && (forall s: Block :: f.g.Edge(b, s) ==> s == c) && RegsOf(f.blocks[b].term.ops) == {}
  }

  /** What lowering a function in SSA form without critical edges into phi blocks gives: arguments are never defined;
      a value defined in two places is a phi, whose copies stand at the end of blocks that lead to the phi's block
      only; and no value can be read before it is defined. */
  ghost predicate SsaLowered(f: Fun, phiBlock: Val -> Block)
    requires |f.blocks| == f.g.Size()
  {
    && (forall b: Block, k: nat, d :: DefinedAt(f, b, k, d) ==> d !in f.args)
    && (forall b: Block, k: nat, b': Block, k': nat, d :: DefinedAt(f, b, k, d) && DefinedAt(f, b', k', d) ==>
          (b == b' && k == k') || (CopiedHere(f, phiBlock, b, k, d) && CopiedHere(f, phiBlock, b', k', d)))
    && (forall v :: f.Live(v, ENTRY, 0) ==> v in f.args)
  }

  ghost predicate CopiedHere(f: Fun, phiBlock: Val -> Block, b: Block, k: nat, d: Val) {
    && b < |f.blocks| && f.blocks[b].IsCopyStep(k) && d in Targets(f.blocks[b].copies)
    && OnlyLeadsTo(f, b, phiBlock(d))
  }

  /** A value that is live somewhere, but not at the entry, is live right after one of its definitions. */
  lemma {:induction false} LiveAfterSomeDef(f: Fun, v: Val, p: seq<Block>, b: Block, k: nat) returns (c: Block, l: nat)
    requires f.Valid() && f.g.PathTo(p, b) && k <= f.blocks[b].StepCount()
    requires f.Live(v, b, k) && !f.Live(v, ENTRY, 0)
    ensures DefinedAt(f, c, l, v) && f.Live(v, c, l + 1)
    decreases |p|, k
  {
    if k > 0 {
      LiveStep(f, v, b, k - 1);
      if v in f.blocks[b].Defs(k - 1) {
        c, l := b, k - 1;
      } else {
        c, l := LiveAfterSomeDef(f, v, p, b, k - 1);
      }
    } else {
      assert |p| > 1;
      var a := p[|p| - 2];
      assert f.g.PathTo(p[..|p| - 1], a);
      LiveEdge(f, v, a);
      c, l := LiveAfterSomeDef(f, v, p[..|p| - 1], a, f.blocks[a].StepCount());
    }
  }

  /** Right after the copies that target `v`, `v` is live exactly when it is live at the start of its phi's block. */
  lemma LiveAfterCopies(f: Fun, phiBlock: Val -> Block, b: Block, k: nat, v: Val)
    requires f.Valid() && CopiedHere(f, phiBlock, b, k, v)
    ensures f.Live(v, b, k + 1) <==> f.Live(v, phiBlock(v), 0)
  {
    var n := f.blocks[b].StepCount();
    assert f.blocks[b].InsAt(k + 1) == f.blocks[b].term && f.blocks[b].Uses(k + 1) == {} && f.blocks[b].Defs(k + 1) == {};
    LiveStep(f, v, b, k + 1);
    LiveEdge(f, v, b);
  }

  /** A value that is live anywhere is live right after each of its definitions. */
  lemma LiveAfterEveryDef(f: Fun, phiBlock: Val -> Block, v: Val, b: Block, k: nat, c: Block, l: nat)
    requires f.Valid() && SsaLowered(f, phiBlock) && DefinedAt(f, c, l, v)
    requires b < |f.blocks| && k <= f.blocks[b].StepCount() && f.Live(v, b, k)
    ensures f.Live(v, c, l + 1)
  {
    assert v !in f.args;
    assert f.g.Reachable(b);
    var p :| f.g.PathTo(p, b);
    var c', l' := LiveAfterSomeDef(f, v, p, b, k);
    if (c, l) != (c', l') {
      LiveAfterCopies(f, phiBlock, c', l', v);
      LiveAfterCopies(f, phiBlock, c, l, v);
    }
  }

  /** Everything live somewhere has an interval, and the converse. */
  lemma HasInterval(f: Fun, ids: Ids, owner: map<int, Place>, m: IntervalMap, v: Val) returns (b: Block, k: nat)
    requires f.Valid() && Numbered(f, ids, owner) && ExactIntervals(f, ids, m) && v in m && v !in f.args
    ensures b < |f.blocks| && k <= f.blocks[b].StepCount() && f.Live(v, b, k)
  {
    assert LiveAtPos(f, ids, v, m[v].start);
    var pl: Place :| IsPlace(f, pl) && LiveAround(f, ids, v, m[v].start, pl);
    b, k := pl.b, StepOf(f, pl);
    if !f.Live(v, b, k) {
      k := k + 1;
    }
  }

  /** What is live after a step has an interval over the position after it. */
  lemma CoversAfter(f: Fun, ids: Ids, owner: map<int, Place>, m: IntervalMap, b: Block, k: nat, v: Val)
    requires f.Valid() && Numbered(f, ids, owner) && ExactIntervals(f, ids, m)
    requires b < |f.blocks| && k < f.blocks[b].StepCount() && f.Live(v, b, k + 1)
    ensures v in m && m[v].start <= 2 * StepId(f, ids, b, k) <= m[v].end
  {
    hide Numbered;
    var blk := f.blocks[b];
    var pl := if blk.IsCopyStep(k) then CopyAt(b, 0) else InstrAt(b, if k < |blk.body| then k else |blk.body|);
    PlaceOwner(f, ids, owner, pl);
    assert LiveAround(f, ids, v, 2 * StepId(f, ids, b, k), pl);
    assert LiveAtPos(f, ids, v, 2 * StepId(f, ids, b, k));
  }

  /** Values have registers of one bank only if they have intervals, and different ones if these overlap. */
  ghost predicate Assigned(assign: map<RegValue, int>, m: IntervalMap, values: Val -> RegValue) {
    && (forall v :: values(v) in assign ==> v in m)
    && (forall v, w :: values(v) in assign && values(w) in assign && v != w && v in m && w in m ==>
          m[v].end < m[w].start || m[w].end < m[v].start || assign[values(v)] != assign[values(w)])
  }

  lemma HeldBy(ra: Regalloc.RegAllocator, ints: seq<LiveInterval>, h: set<LiveInterval>, assign: map<RegValue, int>,
               m: IntervalMap, values: Val -> RegValue, v: Val)
    requires ra.Allocates(ints, h, assign) && Liverange.Lists(ints, m, values) && forall x :: values(x).id == x
    requires values(v) in assign
    ensures v in m && Liverange.IntervalOf(m, v, values) in h
  {
    var x :| x in h && x.val == values(v);
    assert x in ints;
    var w :| w in m && x == Liverange.IntervalOf(m, w, values);
    assert values(w).id == w && values(v).id == v;
  }

  lemma ScanAssigns(ra: Regalloc.RegAllocator, ints: seq<LiveInterval>, h: set<LiveInterval>,
                    assign: map<RegValue, int>,
                    m: IntervalMap, values: Val -> RegValue)
    requires ra.Allocates(ints, h, assign) && Liverange.Lists(ints, m, values) && forall x :: values(x).id == x
    ensures Assigned(assign, m, values)
  {
    hide Regalloc.RegAllocator.Allocates, Liverange.Lists;
    forall v | values(v) in assign
      ensures v in m
    {
      HeldBy(ra, ints, h, assign, m, values, v);
    }
    forall v, w | values(v) in assign && values(w) in assign && v != w && v in m && w in m &&
                  m[v].start <= m[w].end && m[w].start <= m[v].end
      ensures assign[values(v)] != assign[values(w)]
    {
      HeldBy(ra, ints, h, assign, m, values, v);
      HeldBy(ra, ints, h, assign, m, values, w);
      DifferentRegisters(ra, ints, h, assign, Liverange.IntervalOf(m, v, values), Liverange.IntervalOf(m, w, values));
    }
  }

  lemma DifferentRegisters(ra: Regalloc.RegAllocator, ints: seq<LiveInterval>, h: set<LiveInterval>,
                           assign: map<RegValue, int>, x: LiveInterval, y: LiveInterval)
    requires ra.Allocates(ints, h, assign) && x in h && y in h && x.val != y.val && x.Overlaps(y)
    requires x.val in assign && y.val in assign
    ensures assign[x.val] != assign[y.val]
  {
  }

  /** Where each value lives: in its register, or else in its own slot. */
  function Located(values: Val -> RegValue, ints: map<RegValue, int>, floats: map<RegValue, int>): Locator {
    (v: Val) =>
      if values(v) in ints then Register(false, ints[values(v)])
      else if values(v) in floats then Register(true, floats[values(v)])
      else Own(v)
  }

  lemma OverlapSeparates(values: Val -> RegValue, ints: map<RegValue, int>, floats: map<RegValue, int>, m: IntervalMap,
                         v: Val, w: Val, t: int)
    requires Assigned(ints, m, values) && Assigned(floats, m, values) && v != w
    requires v in m && w in m ==> m[v].start <= t <= m[v].end && m[w].start <= t <= m[w].end
    ensures Located(values, ints, floats)(v) != Located(values, ints, floats)(w)
  {
  }

  /** The places given to the values never clash. */
  lemma AssignmentSeparates(f: Fun, ids: Ids, owner: map<int, Place>, m: IntervalMap, phiBlock: Val -> Block,
                            values: Val -> RegValue, ints: map<RegValue, int>, floats: map<RegValue, int>)
    requires f.Valid() && SsaLowered(f, phiBlock) && Numbered(f, ids, owner) && ExactIntervals(f, ids, m)
    requires Assigned(ints, m, values) && Assigned(floats, m, values)
    ensures Separates(f, Located(values, ints, floats))
  {
    hide Numbered, Assigned, ExactIntervals;
    forall b: Block, k: nat, d, v | b < |f.blocks| && k < f.blocks[b].StepCount() && d in f.blocks[b].Defs(k) &&
                                    f.Live(v, b, k + 1) && d != v
      ensures Located(values, ints, floats)(d) != Located(values, ints, floats)(v)
    {
      CoversAfter(f, ids, owner, m, b, k, v);
      assert DefinedAt(f, b, k, d);
      if d in m {
        var c, l := HasInterval(f, ids, owner, m, d);
        LiveAfterEveryDef(f, phiBlock, d, c, l, b, k);
        CoversAfter(f, ids, owner, m, b, k, d);
      }
      OverlapSeparates(values, ints, floats, m, d, v, 2 * StepId(f, ids, b, k));
    }
  }

  /** The arguments have places of their own at the entry, so the caller can put them there. */
  ghost predicate ArgumentsApart(f: Fun, loc: Locator) {
    forall v, w :: v in f.args && w in f.args && v != w ==> loc(v) != loc(w)
  }

  lemma AssignmentKeepsArguments(f: Fun, ids: Ids, m: IntervalMap, values: Val -> RegValue,
                                 ints: map<RegValue, int>, floats: map<RegValue, int>)
    requires f.Valid() && ExactIntervals(f, ids, m) && Assigned(ints, m, values) && Assigned(floats, m, values)
    ensures ArgumentsApart(f, Located(values, ints, floats))
  {
    hide Assigned, ExactIntervals;
    forall v, w | v in f.args && w in f.args && v != w
      ensures Located(values, ints, floats)(v) != Located(values, ints, floats)(w)
    {
      ArgumentCovers(f, ids, m, v);
      ArgumentCovers(f, ids, m, w);
      OverlapSeparates(values, ints, floats, m, v, w, 0);
    }
  }

  lemma ArgumentCovers(f: Fun, ids: Ids, m: IntervalMap, v: Val)
    requires f.Valid() && ExactIntervals(f, ids, m) && v in f.args
    ensures v in m && m[v].start <= 0 <= m[v].end
  {
    assert LiveAtPos(f, ids, v, 0);
  }

  /** On every path, with the arguments in place at the entry, the same values are read with `loc` as with unbounded
      temporaries. */
  ghost predicate SameReads(f: Fun, loc: Locator)
    requires f.Valid()
  {
    forall oracle: Oracle, start: Loc -> int, temps: Loc -> int, p: seq<Block>, b: Block
      {:trigger SameOn(f, loc, oracle, start, temps, p, b)} ::
      f.g.PathTo(p, b) && EntersAlike(f, loc, start, temps) ==> SameOn(f, loc, oracle, start, temps, p, b)
  }

  ghost predicate SameOn(f: Fun, loc: Locator, oracle: Oracle, start: Loc -> int, temps: Loc -> int, p: seq<Block>,
                         b: Block)
    requires f.Valid() && f.g.PathTo(p, b)
  {
    PathBlocksReachable(f.g, p, b);
    assert forall i :: 0 <= i < |p| ==> p[i] in p;
    forall k: nat {:trigger RunTo(f, loc, oracle, start, p, k)} :: k <= f.blocks[b].StepCount() ==>
      RunTo(f, loc, oracle, start, p, k).trace == RunTo(f, TEMPORARIES, oracle, temps, p, k).trace
  }

  /** The arguments have the same values in both stores. */
  ghost predicate EntersAlike(f: Fun, loc: Locator, start: Loc -> int, temps: Loc -> int) {
    forall v :: v in f.args ==> start(loc(v)) == temps(Own(v))
  }

  lemma SeparatedReadsSame(f: Fun, loc: Locator, phiBlock: Val -> Block)
    requires f.Valid() && SsaLowered(f, phiBlock) && Separates(f, loc)
    ensures SameReads(f, loc)
  {
    hide Separates;
    forall oracle: Oracle, start: Loc -> int, temps: Loc -> int, p: seq<Block>, b: Block
        {:trigger SameOn(f, loc, oracle, start, temps, p, b)} |
        f.g.PathTo(p, b) && EntersAlike(f, loc, start, temps)
      ensures SameOn(f, loc, oracle, start, temps, p, b)
    {
      PathBlocksReachable(f.g, p, b);
      assert forall i :: 0 <= i < |p| ==> p[i] in p;
      forall k: nat {:trigger RunTo(f, loc, oracle, start, p, k)} | k <= f.blocks[b].StepCount()
        ensures RunTo(f, loc, oracle, start, p, k).trace == RunTo(f, TEMPORARIES, oracle, temps, p, k).trace
      {
        RunsAgree(f, loc, oracle, start, temps, p, b, k);
      }
    }
  }

  /** Arguments of the bank's class have the registers of their indices; no other argument has a register. */
  lemma PinnedPlace(ra: Regalloc.RegAllocator, ints: seq<LiveInterval>, h: set<LiveInterval>,
                    assign: map<RegValue, int>,
                    m: IntervalMap, values: Val -> RegValue, v: Val)
    requires ra.Allocates(ints, h, assign) && Liverange.Lists(ints, m, values) && v in m
    ensures values(v).Argument? && Regalloc.InClass(ra.isFloat, values(v)) && values(v).no < Regalloc.ARG_MAX_REGS ==>
              values(v) in assign && assign[values(v)] == values(v).no + 1
    ensures values(v).Argument? && !Regalloc.InClass(ra.isFloat, values(v)) ==> values(v) !in assign
    ensures values(v).Argument? && values(v).no >= Regalloc.ARG_MAX_REGS ==> values(v) !in assign
  {
    var x := Liverange.IntervalOf(m, v, values);
    assert x in ints;
    if Regalloc.Pinned(ra.isFloat, x) {
      assert x in Regalloc.PinnedIn(ra.isFloat, ints);
    }
  }

  /** Arguments of either class whose index among all arguments is below eight are in the register of that index; the
      others, and pointers, are in memory. */
  ghost predicate PlacedByIndex(f: Fun, values: Val -> RegValue, loc: Locator) {
    forall v :: v in f.args ==> loc(v) == PlaceByIndex(values(v), v)
  }

  function PlaceByIndex(x: RegValue, v: Val): Loc {
    if x.Argument? && x.cls != OtherClass && x.no < Regalloc.ARG_MAX_REGS then Register(x.cls == FloatClass, x.no + 1)
    else Own(v)
  }

  /** `assign` keeps the pinned arguments of a bank in place, and some candidates; overlapping intervals never share a
      register. */
  ghost predicate BankAssignment(isFloat: bool, regs: nat, listed: seq<LiveInterval>, assign: map<RegValue, int>) {
    && (forall v :: v in assign ==> exists x :: x in PinnedOrCompeting(isFloat, listed) && x.val == v)
    && (forall x :: x in Regalloc.PinnedIn(isFloat, listed) ==> x.val in assign && assign[x.val] == x.val.no + 1)
    && Colors(Placed(isFloat, listed, assign), assign, regs)
  }

  ghost function PinnedOrCompeting(isFloat: bool, listed: seq<LiveInterval>): set<LiveInterval> {
    Regalloc.PinnedIn(isFloat, listed) + Regalloc.CompetingIn(isFloat, listed)
  }

  ghost function Placed(isFloat: bool, listed: seq<LiveInterval>, assign: map<RegValue, int>): set<LiveInterval> {
    set x | x in PinnedOrCompeting(isFloat, listed) && x.val in assign
  }

  /** No assignment for the same intervals has fewer of them in memory. */
  ghost predicate SpillsLeast(isFloat: bool, regs: nat, listed: seq<LiveInterval>, assign: map<RegValue, int>) {
    && BankAssignment(isFloat, regs, listed, assign)
    && forall other :: BankAssignment(isFloat, regs, listed, other) ==>
         |Placed(isFloat, listed, other)| <= |Placed(isFloat, listed, assign)|
  }

  /** The scan's tables, read as an assignment that spills least. */
  lemma ScanSpillsLeast(ra: Regalloc.RegAllocator, listed: seq<LiveInterval>, h: set<LiveInterval>,
                        assign: map<RegValue, int>)
    requires Scannable(listed) && ra.Allocates(listed, h, assign) && ra.KeepsMost(listed, h)
    ensures SpillsLeast(ra.isFloat, ra.numRegs, listed, assign)
  {
    hide Colors, Regalloc.RegAllocator.KeepsMost, Regalloc.RegAllocator.Allocates, BankAssignment, Placed, Scannable;
    HeldIsPlaced(ra, listed, h, assign);
    PlacedParts(ra.isFloat, ra.numRegs, listed, assign);
    forall other | BankAssignment(ra.isFloat, ra.numRegs, listed, other)
      ensures |Placed(ra.isFloat, listed, other)| <= |h|
    {
      PlacedParts(ra.isFloat, ra.numRegs, listed, other);
      ra.FewestSpills(listed, h, Placed(ra.isFloat, listed, other), other);
    }
  }

  lemma PlacedParts(isFloat: bool, regs: nat, listed: seq<LiveInterval>, assign: map<RegValue, int>)
    requires BankAssignment(isFloat, regs, listed, assign)
    ensures var p, pinned := Placed(isFloat, listed, assign), Regalloc.PinnedIn(isFloat, listed);
            && pinned <= p <= pinned + Regalloc.CompetingIn(isFloat, listed) && Colors(p, assign, regs)
            && |p| == |p - pinned| + |pinned|
  {
    hide Colors;
    var p, pinned := Placed(isFloat, listed, assign), Regalloc.PinnedIn(isFloat, listed);
    assert p == (p - pinned) + pinned;
  }

  lemma HeldIsPlaced(ra: Regalloc.RegAllocator, listed: seq<LiveInterval>, h: set<LiveInterval>,
                     assign: map<RegValue, int>)
    requires Scannable(listed) && ra.Allocates(listed, h, assign)
    ensures Placed(ra.isFloat, listed, assign) == h && BankAssignment(ra.isFloat, ra.numRegs, listed, assign)
  {
    hide Colors, Scannable;
    forall x | x in Placed(ra.isFloat, listed, assign)
      ensures x in h
    {
      var y :| y in h && y.val == x.val;
      SameValue(listed, x, y);
    }
    assert Placed(ra.isFloat, listed, assign) == h;
  }

  lemma SameValue(listed: seq<LiveInterval>, x: LiveInterval, y: LiveInterval)
    requires Scannable(listed) && x in listed && y in listed && x.val == y.val
    ensures x == y
  {
    var i, j :| 0 <= i < |listed| && 0 <= j < |listed| && listed[i] == x && listed[j] == y;
  }

  /** Liveness, then linear scan for each register bank. Keeping each value where the scans put it, every instruction
      and every copy on every path reads the values that it would read with unbounded temporaries; and with these live
      intervals no assignment spills less. */
  method AssignRegisters(f: Fun, values: Val -> RegValue, intRegs: nat, floatRegs: nat, ghost phiBlock: Val -> Block)
      returns (ints: map<RegValue, int>, floats: map<RegValue, int>, ghost listed: seq<LiveInterval>, ghost ids: Ids,
               ghost owner: map<int, Place>, ghost m: IntervalMap, ghost order: seq<Block>)
    requires f.Valid() && CopiesDistinct(f) && f.g.preds[ENTRY] == [] && SsaLowered(f, phiBlock)
    requires Liverange.Describes(f, values)
    requires Regalloc.ARG_MAX_REGS < intRegs <= Regalloc.MAX_REGS
    requires Regalloc.ARG_MAX_REGS < floatRegs <= Regalloc.MAX_REGS
    ensures SameReads(f, Located(values, ints, floats))
    ensures ArgumentsApart(f, Located(values, ints, floats))
    ensures PlacedByIndex(f, values, Located(values, ints, floats))
    ensures Numbered(f, ids, owner) && ExactIntervals(f, ids, m) && Liverange.Lists(listed, m, values)
    ensures Liverange.Discovered(f.g, order) && InExecutionOrder(f, ids, order)
    ensures SpillsLeast(false, intRegs, listed, ints) && SpillsLeast(true, floatRegs, listed, floats)
    ensures Regalloc.ServesAll(false, intRegs, listed, ints) && Regalloc.ServesAll(true, floatRegs, listed, floats)
  {
    hide SsaLowered, Numbered, Exact, ExactIntervals, Scannable, Liverange.Lists, CopiesDistinct, SameReads,
         Regalloc.RegAllocator.Allocates, Regalloc.RegAllocator.KeepsMost, Assigned, Separates, ArgumentsApart,
         SpillsLeast, Liverange.Discovered, InExecutionOrder;
    var lra := new Liverange.LiveRangeAnalyzer(f, values);
    lra.Run();
    var raInt := new Regalloc.RegAllocator(intRegs, false);
    var raFloat := new Regalloc.RegAllocator(floatRegs, true);
    raInt.LinearScan(lra.liveIntervals);
    raFloat.LinearScan(lra.liveIntervals);
    ints, floats, listed := raInt.regMap, raFloat.regMap, lra.liveIntervals;
    ids, owner, m, order := lra.ids, lra.owner, lra.intervalMap, lra.bbDfsOrder;
    ScanAssigns(raInt, listed, raInt.held, ints, m, values);
    ScanAssigns(raFloat, listed, raFloat.held, floats, m, values);
    ScanSpillsLeast(raInt, listed, raInt.held, ints);
    ScanSpillsLeast(raFloat, listed, raFloat.held, floats);
    AssignmentSeparates(f, ids, owner, m, phiBlock, values, ints, floats);
    AssignmentKeepsArguments(f, ids, m, values, ints, floats);
    SeparatedReadsSame(f, Located(values, ints, floats), phiBlock);
    forall v | v in f.args
      ensures Located(values, ints, floats)(v) == PlaceByIndex(values(v), v)
    {
      ArgumentCovers(f, ids, m, v);
      PinnedPlace(raInt, listed, raInt.held, ints, m, values, v);
      PinnedPlace(raFloat, listed, raFloat.held, floats, m, values, v);
    }
  }
}
