/** Linear scan register allocation for one register class. */
module Regalloc {
  import opened Basics
  import opened Intervals

  const MAX_REGS := 32
  const ARG_MAX_REGS := 8

  /** The order of the active intervals: arguments first, then by end. */
  predicate EndsBefore(a: LiveInterval, b: LiveInterval) {
    if a.val.Argument? != b.val.Argument? then a.val.Argument?
    else if a.end != b.end then a.end < b.end
    else if a.start != b.start then a.start < b.start
    else a.val.id < b.val.id
  }

  /** The filter in front of the scan. */
  predicate NoRegAlloca(v: RegValue) {
    match v
    case Instruction(_, _, isVoid, isAlloca, isCmp, uses, usedByBranch) =>
      if isVoid || isAlloca || uses == 0 then true
      else if isCmp then (if uses != 1 then false else usedByBranch)
      else false
    case Argument(_, no, _) => no >= ARG_MAX_REGS
  }

  /** The values of one register bank. */
  predicate InClass(isFloat: bool, v: RegValue) {
    v.cls == if isFloat then FloatClass else IntClass
  }

  predicate Pinned(isFloat: bool, x: LiveInterval) {
    x.val.Argument? && InClass(isFloat, x.val) && x.val.no < ARG_MAX_REGS
  }

  /** An instruction whose result is needed in a register of this bank: it yields a value that is used, it is no alloca,
      and it is not a comparison whose one use is in a branch. */
  predicate Competes(isFloat: bool, v: RegValue) {
    && v.Instruction? && v.cls == (if isFloat then FloatClass else IntClass)
    && v.uses >= 1 && !v.isVoid && !v.isAlloca && !(v.isCmp && v.uses == 1 && v.usedByBranch)
  }

  function PinnedIn(isFloat: bool, ints: seq<LiveInterval>): set<LiveInterval> {
    set x | x in ints && Pinned(isFloat, x)
  }

  function CompetingIn(isFloat: bool, ints: seq<LiveInterval>): set<LiveInterval> {
    set x | x in ints && Competes(isFloat, x.val)
  }

  function ToSet(s: seq<LiveInterval>): (r: set<LiveInterval>)
    ensures forall x :: x in r <==> x in s
  {
    set x | x in s
  }

  /** The intervals that want a register of this bank at a position. */
  function Pressing(isFloat: bool, ints: seq<LiveInterval>, t: int): set<LiveInterval> {
    set x | x in ints && x.Covers(t) && (Competes(isFloat, x.val) || Pinned(isFloat, x))
  }

  /** Of the instructions, only those that compete have a register, and all of them if there are enough registers at
      every position. */
  ghost predicate ServesAll(isFloat: bool, regs: nat, ints: seq<LiveInterval>, assign: map<RegValue, int>) {
    && (forall v :: v in assign && v.Instruction? ==> Competes(isFloat, v))
    && ((forall t :: |Pressing(isFloat, ints, t)| <= regs) ==>
          forall x :: x in ints && Competes(isFloat, x.val) ==> x.val in assign)
  }

  /** The allocator's tables agree with the intervals `held` in registers: the active ones include all that reach
      position `hi` and only such as reach `lo`, and a register is in use exactly when an active interval has it. */
  ghost predicate Consistent(held: set<LiveInterval>, used: seq<bool>, regMap: map<RegValue, int>,
                             active: seq<LiveInterval>, regs: nat, lo: int, hi: int) {
    && Mapped(held, regMap) && Colors(held, regMap, regs)
    && (forall x :: x in held ==> x.start <= x.end && x.start <= lo)
    && SortedBy(active, EndsBefore)
    && (forall x :: x in active ==> x in held && lo <= x.end)
    && (forall x :: x in held && hi <= x.end ==> x in active)
    && UsedBy(used, regMap, active, regs)
  }

  ghost predicate Mapped(held: set<LiveInterval>, regMap: map<RegValue, int>) {
    && (forall x :: x in held ==> x.val in regMap)
    && (forall v :: v in regMap ==> exists x :: x in held && x.val == v)
    && (forall x, y :: x in held && y in held && x.val.id == y.val.id ==> x == y)
  }

  ghost predicate Takes(regMap: map<RegValue, int>, active: seq<LiveInterval>, r: int) {
    exists x :: x in active && x.val in regMap && regMap[x.val] == r
  }

  ghost predicate UsedBy(used: seq<bool>, regMap: map<RegValue, int>, active: seq<LiveInterval>, regs: nat) {
    |used| == regs + 1 && !used[0] && forall r :: 1 <= r <= regs ==> (used[r] <==> Takes(regMap, active, r))
  }

  class RegAllocator {
    const isFloat: bool
    const numRegs: nat
    /** Indexed 1..numRegs; index 0 is never set. */
    var used: seq<bool>
    var regMap: map<RegValue, int>
    /** In the order of EndsBefore. */
    var active: seq<LiveInterval>
    /** The intervals that have a register. */
    ghost var held: set<LiveInterval>

    constructor (numRegs: nat, isFloat: bool)
      requires numRegs <= MAX_REGS
      ensures this.numRegs == numRegs && this.isFloat == isFloat
    {
      this.numRegs, this.isFloat := numRegs, isFloat;
      used, regMap, active, held := seq(numRegs + 1, i => false), map[], [], {};
    }

    ghost predicate ConsistentAt(p: int)
      reads this
    {
      Consistent(held, used, regMap, active, numRegs, p, p)
    }

    method Reset()
      modifies this
      ensures regMap == map[] && active == [] && held == {} && used == seq(numRegs + 1, i => false)
    {
      regMap, active, held, used := map[], [], {}, seq(numRegs + 1, i => false);
    }

    /** Inserts into the ordered active set. */
    method Activate(x: LiveInterval)
      requires SortedBy(active, EndsBefore) && forall y :: y in active ==> y.val.id != x.val.id
      modifies this`active
      ensures SortedBy(active, EndsBefore) && ToSet(active) == ToSet(old(active)) + {x}
      ensures |active| == |old(active)| + 1
    {
      var i := 0;
      while i < |active| && EndsBefore(active[i], x)
        invariant i <= |active| && forall j :: 0 <= j < i ==> EndsBefore(active[j], x)
      {
        i := i + 1;
      }
      active := active[..i] + [x] + active[i..];
    }

    /** Gives each argument of this class whose index among all arguments is below eight the register of that index,
        active from the start. */
    method ReserveForArg(ints: seq<LiveInterval>)
      requires Scannable(ints) && ARG_MAX_REGS < numRegs
      requires regMap == map[] && active == [] && held == {} && used == seq(numRegs + 1, i => false)
      modifies this`used, this`regMap, this`active, this`held
      ensures ConsistentAt(0) && held == PinnedIn(isFloat, ints)
      ensures forall x :: x in held ==> x.val in regMap && regMap[x.val] == x.val.no + 1
    {
      hide Consistent;
      NothingHeld(used, regMap, active, numRegs);
      for i := 0 to |ints|
        invariant ConsistentAt(0) && held == PinnedIn(isFloat, ints[..i])
        invariant forall x :: x in held ==> x.val in regMap && regMap[x.val] == x.val.no + 1
      {
        var liveint := ints[i];
        Next(ints, i);
        if !liveint.val.Argument? {
          continue;
        }
        if !InClass(isFloat, liveint.val) {
          continue;
        }
        if liveint.val.no >= ARG_MAX_REGS {
          continue;
        }
        var reg := liveint.val.no + 1;
        ArgRegisterFree(ints, i);
        ghost var active0 := active;
        Activate(liveint);
        Assign(held, used, regMap, active0, active, numRegs, 0, liveint, reg);
        used := used[reg := true];
        regMap := regMap[liveint.val := reg];
        held := held + {liveint};
      }
      assert ints[..|ints|] == ints;
    }

    lemma Next(ints: seq<LiveInterval>, i: nat)
      requires i < |ints|
      ensures PinnedIn(isFloat, ints[..i + 1]) ==
              PinnedIn(isFloat, ints[..i]) + if Pinned(isFloat, ints[i]) then {ints[i]} else {}
      ensures CompetingIn(isFloat, ints[..i + 1]) ==
              CompetingIn(isFloat, ints[..i]) + if Competes(isFloat, ints[i].val) then {ints[i]} else {}
      ensures forall x :: x in PinnedIn(isFloat, ints[..i]) ==> x in ints[..i] && Pinned(isFloat, x)
    {
      assert ints[..i + 1] == ints[..i] + [ints[i]];
    }

    lemma ArgRegisterFree(ints: seq<LiveInterval>, i: nat)
      requires Scannable(ints) && i < |ints| && Pinned(isFloat, ints[i]) && ARG_MAX_REGS < numRegs
      requires ConsistentAt(0) && held == PinnedIn(isFloat, ints[..i])
      requires forall x :: x in held ==> x.val in regMap && regMap[x.val] == x.val.no + 1
      ensures |used| == numRegs + 1 && !used[ints[i].val.no + 1]
      ensures ints[i].start == 0 <= ints[i].end && forall x :: x in held ==> x.val.id != ints[i].val.id
      ensures SortedBy(active, EndsBefore) && forall x :: x in active ==> x in held
    {
      assert ints[i] in ints;
      forall x | x in held
        ensures x.val.id != ints[i].val.id && x.val.no != ints[i].val.no
      {
        var j :| 0 <= j < i && ints[..i][j] == x;
        assert ints[j] == x && x in ints;
      }
    }

    /** Drops the active intervals that end before `liveint` starts and frees their registers. */
    method ExpireOldIntervals(liveint: LiveInterval, ghost last: int)
      requires ConsistentAt(last) && last <= liveint.start
      modifies this`used, this`active
      ensures ConsistentAt(liveint.start)
    {
      hide Consistent;
      var i := 0;
      Widen(held, used, regMap, active, numRegs, last, liveint.start);
      while i < |active|
        invariant i <= |active| && forall j :: 0 <= j < i ==> liveint.start <= active[j].end
        invariant Consistent(held, used, regMap, active, numRegs, last, liveint.start)
        decreases |active| - i
      {
        if active[i].end < liveint.start {
          Expire(held, used, regMap, active, numRegs, last, liveint.start, i);
          used := used[regMap[active[i].val] := false];
          active := active[..i] + active[i + 1..];
        } else {
          i := i + 1;
        }
      }
      Narrow(held, used, regMap, active, numRegs, last, liveint.start);
    }

    /** The first free register. */
    method FindNextUnset() returns (reg: int)
      requires |used| == numRegs + 1 && exists r :: 1 <= r <= numRegs && !used[r]
      ensures 1 <= reg <= numRegs && !used[reg] && forall r :: 1 <= r < reg ==> used[r]
    {
      reg := 1;
      while used[reg]
        invariant 1 <= reg <= numRegs && forall r :: 1 <= r < reg ==> used[r]
        decreases numRegs - reg
      {
        reg := reg + 1;
      }
    }

    /** With all registers taken, either the active interval that ends last gives its register to `liveint`, or
        `liveint` ends later still and stays in memory. */
    method SpillAtInterval(liveint: LiveInterval) returns (ghost victim: LiveInterval)
      requires ConsistentAt(liveint.start) && liveint.start <= liveint.end
      requires liveint.val.Instruction? && forall y :: y in held ==> y.val.id != liveint.val.id
      requires exists i :: 0 <= i < |active| && active[i].val.Instruction?
      modifies this`regMap, this`active, this`held
      ensures ConsistentAt(liveint.start)
      ensures victim == liveint || (victim in old(held) && victim in old(active))
      ensures victim.val.Instruction? && held == old(held) + {liveint} - {victim}
      ensures forall x :: (x in old(active) && x.val.Instruction?) || x == liveint ==> x.end <= victim.end
      ensures forall x :: x in held && x != liveint ==>
                x.val in regMap && x.val in old(regMap) && regMap[x.val] == old(regMap)[x.val]
    {
      hide Consistent, SortedBy;
      Shape(held, used, regMap, active, numRegs, liveint.start, liveint.start);
      var it := FindVictim();
      LastInstruction(active, it);
      if liveint.end > active[it].end {
        return liveint;
      }
      var oldVal := active[it].val;
      var reg := regMap[oldVal];
      victim := active[it];
      ghost var before := active;
      RemoveAt(before, it);
      active := active[..it] + active[it + 1..];
      Activate(liveint);
      assert forall x :: x in active <==> x in ToSet(active);
      Evict(held, used, regMap, before, active, numRegs, liveint.start, victim, liveint);
      Untouched(held, regMap, victim, liveint, reg);
      regMap := (regMap - {oldVal})[liveint.val := reg];
      held := held - {victim} + {liveint};
    }

    /** The position of the last active interval that is not an argument. */
    method FindVictim() returns (it: nat)
      requires exists i :: 0 <= i < |active| && active[i].val.Instruction?
      ensures it < |active| && active[it].val.Instruction?
      ensures forall j :: it < j < |active| ==> active[j].val.Argument?
    {
      ghost var w :| 0 <= w < |active| && active[w].val.Instruction?;
      it := |active| - 1;
      while active[it].val.Argument?
        invariant w <= it < |active|
        invariant forall j :: it < j < |active| ==> active[j].val.Argument?
        decreases it
      {
        if it == 0 {
          break;
        }
        it := it - 1;
      }
    }

    /** Assigns registers to the values of this class. The assignment never shares a register between overlapping
        intervals, keeps the pinned arguments, and no other way to do so keeps more of the other values. */
    method LinearScan(ints: seq<LiveInterval>)
      requires Scannable(ints) && ARG_MAX_REGS < numRegs <= MAX_REGS
      modifies this
      ensures Allocates(ints, held, regMap) && KeepsMost(ints, held)
      ensures ServesAll(isFloat, numRegs, ints, regMap)
    {
      hide Consistent, Fits, CanKeep, Scanned, Scannable, SortedBy, Colors, Mapped;
      Reset();
      ReserveForArg(ints);
      ghost var all, pinned, last := CompetingIn(isFloat, ints), PinnedIn(isFloat, ints), 0;
      ghost var spilled: set<LiveInterval> := {};
      ScannedStart(ints);
      for i := 0 to |ints|
        invariant ConsistentAt(last) && Scanned(ints, i, held, spilled, last)
        invariant forall x :: x in pinned ==> x.val in regMap && regMap[x.val] == x.val.no + 1
        invariant forall n :: CanKeep(all, pinned, numRegs, {}, n) ==> CanKeep(all, pinned, numRegs, spilled, n)
      {
        var liveint := ints[i];
        if liveint.val.Argument? || !InClass(isFloat, liveint.val) || NoRegAlloca(liveint.val) {
          ScannedSkip(ints, i, held, spilled, last);
          continue;
        }
        spilled := AllocateOrSpill(ints, i, spilled, last);
        last := liveint.start;
      }
      ScannedEnd(ints, spilled, last);
      forall k | k <= all && Fits(k + pinned, numRegs)
        ensures |k| <= |held - pinned|
      {
        NothingBetter(ints, spilled, last, k);
      }
      NoneLeftOut(ints, held, regMap);
    }

    /** `assign` is a register assignment for exactly the intervals `h`: all pinned arguments in their own registers,
        and some candidates. */
    ghost predicate Allocates(ints: seq<LiveInterval>, h: set<LiveInterval>, assign: map<RegValue, int>) {
      && (forall v :: v in assign <==> exists x :: x in h && x.val == v)
      && PinnedIn(isFloat, ints) <= h <= PinnedIn(isFloat, ints) + CompetingIn(isFloat, ints)
      && (forall x :: x in PinnedIn(isFloat, ints) ==> x.val in assign && assign[x.val] == x.val.no + 1)
      && Colors(h, assign, numRegs)
    }

    /** No set of candidates that fits beside the pinned arguments is larger than the one kept. */
    ghost predicate KeepsMost(ints: seq<LiveInterval>, h: set<LiveInterval>) {
      forall k :: k <= CompetingIn(isFloat, ints) && Fits(k + PinnedIn(isFloat, ints), numRegs) ==>
        |k| <= |h - PinnedIn(isFloat, ints)|
    }

    /** Fewest spills: no assignment whatever that keeps the pinned arguments holds more of the other values. */
    lemma FewestSpills(ints: seq<LiveInterval>, h: set<LiveInterval>, other: set<LiveInterval>,
                       assign: map<RegValue, int>)
      requires KeepsMost(ints, h)
      requires PinnedIn(isFloat, ints) <= other <= PinnedIn(isFloat, ints) + CompetingIn(isFloat, ints)
      requires Colors(other, assign, numRegs)
      ensures |other - PinnedIn(isFloat, ints)| <= |h - PinnedIn(isFloat, ints)|
    {
      ColorsFit(other, assign, numRegs);
      assert other - PinnedIn(isFloat, ints) + PinnedIn(isFloat, ints) == other;
    }

    /** Nothing is spilled if at no position more values are live than there are registers. */
    lemma NoNeedlessSpill(ints: seq<LiveInterval>, h: set<LiveInterval>, assign: map<RegValue, int>)
      requires Allocates(ints, h, assign) && KeepsMost(ints, h)
      requires Fits(CompetingIn(isFloat, ints) + PinnedIn(isFloat, ints), numRegs)
      ensures h == PinnedIn(isFloat, ints) + CompetingIn(isFloat, ints)
    {
      hide Fits, Colors, PinnedIn, CompetingIn;
      var all, pinned := CompetingIn(isFloat, ints), PinnedIn(isFloat, ints);
      assert |all| <= |h - pinned|;
      assert h - pinned <= all;
      SameSize(h - pinned, all);
    }

    lemma NoneLeftOut(ints: seq<LiveInterval>, h: set<LiveInterval>, assign: map<RegValue, int>)
      requires Allocates(ints, h, assign) && KeepsMost(ints, h)
      ensures ServesAll(isFloat, numRegs, ints, assign)
    {
      hide Colors, KeepsMost;
      if forall t :: |Pressing(isFloat, ints, t)| <= numRegs {
        forall t
          ensures |Covering(CompetingIn(isFloat, ints) + PinnedIn(isFloat, ints), t)| <= numRegs
        {
          assert Covering(CompetingIn(isFloat, ints) + PinnedIn(isFloat, ints), t) == Pressing(isFloat, ints, t);
        }
        NoNeedlessSpill(ints, h, assign);
      }
    }

    /** Handles one candidate: a free register, or a spill. */
    method AllocateOrSpill(ints: seq<LiveInterval>, i: nat, ghost spilled: set<LiveInterval>, ghost last: int)
        returns (ghost spilled': set<LiveInterval>)
      requires Scannable(ints) && i < |ints| && Competes(isFloat, ints[i].val) && ARG_MAX_REGS < numRegs
      requires ConsistentAt(last) && Scanned(ints, i, held, spilled, last)
      requires forall x :: x in PinnedIn(isFloat, ints) ==> x.val in regMap && regMap[x.val] == x.val.no + 1
      modifies this
      ensures ConsistentAt(ints[i].start) && Scanned(ints, i + 1, held, spilled', ints[i].start)
      ensures forall x :: x in PinnedIn(isFloat, ints) ==> x.val in regMap && regMap[x.val] == x.val.no + 1
      ensures forall n :: CanKeep(CompetingIn(isFloat, ints), PinnedIn(isFloat, ints), numRegs, spilled, n) ==>
                CanKeep(CompetingIn(isFloat, ints), PinnedIn(isFloat, ints), numRegs, spilled', n)
    {
      hide Consistent, CanKeep, Scannable, SortedBy, Colors;
      var liveint := ints[i];
      ScannedNext(ints, i, held, spilled, last);
      SeenBefore(ints, i, held, spilled, last);
      ExpireOldIntervals(liveint, last);
      Full(held, used, regMap, active, numRegs, liveint.start);
      if |active| == numRegs {
        EnoughInstructions(ints, i, held, spilled, last, active, regMap);
        ghost var before, crowd, assign := held, active, regMap;
        ghost var victim := SpillAtInterval(liveint);
        forall n | CanKeep(CompetingIn(isFloat, ints), PinnedIn(isFloat, ints), numRegs, spilled, n)
          ensures CanKeep(CompetingIn(isFloat, ints), PinnedIn(isFloat, ints), numRegs, spilled + {victim}, n)
        {
          FurthestSpilled(ints, i, before, spilled, last, crowd, assign, victim, n);
        }
        spilled' := spilled + {victim};
      } else {
        var reg := FindNextUnset();
        ghost var before := active;
        Activate(liveint);
        Assign(held, used, regMap, before, active, numRegs, liveint.start, liveint, reg);
        used := used[reg := true];
        regMap := regMap[liveint.val := reg];
        held := held + {liveint};
        spilled' := spilled;
      }
    }

    /** After `i` intervals: each candidate seen either holds a register or has been spilled. */
    ghost predicate Scanned(ints: seq<LiveInterval>, i: nat, h: set<LiveInterval>, spilled: set<LiveInterval>,
                            last: int)
      requires i <= |ints|
    {
      && PinnedIn(isFloat, ints) <= h && h !! spilled && PinnedIn(isFloat, ints) !! spilled
      && h + spilled == PinnedIn(isFloat, ints) + CompetingIn(isFloat, ints[..i])
      && 0 <= last && (forall j :: i <= j < |ints| && ints[j].val.Instruction? ==> last <= ints[j].start)
    }

    lemma ScannedStart(ints: seq<LiveInterval>)
      requires Scannable(ints)
      ensures Scanned(ints, 0, PinnedIn(isFloat, ints), {}, 0)
    {
      forall j | 0 <= j < |ints| && ints[j].val.Instruction?
        ensures 0 <= ints[j].start
      {
        assert ints[j] in ints;
      }
    }

    lemma ScannedEnd(ints: seq<LiveInterval>, spilled: set<LiveInterval>, last: int)
      requires Scanned(ints, |ints|, held, spilled, last) && ConsistentAt(last)
      requires forall x :: x in PinnedIn(isFloat, ints) ==> x.val in regMap && regMap[x.val] == x.val.no + 1
      ensures Allocates(ints, held, regMap)
    {
      assert ints[..|ints|] == ints;
    }

    lemma ScannedSkip(ints: seq<LiveInterval>, i: nat, h: set<LiveInterval>, spilled: set<LiveInterval>, last: int)
      requires i < |ints| && Scanned(ints, i, h, spilled, last) && !Competes(isFloat, ints[i].val)
      ensures Scanned(ints, i + 1, h, spilled, last)
    {
      Next(ints, i);
    }

    /** A candidate not seen before starts no earlier than all before it. */
    lemma ScannedNext(ints: seq<LiveInterval>, i: nat, h: set<LiveInterval>, spilled: set<LiveInterval>, last: int)
      requires Scannable(ints) && i < |ints| && Scanned(ints, i, h, spilled, last) && Competes(isFloat, ints[i].val)
      ensures last <= ints[i].start <= ints[i].end
      ensures forall x :: x in h + spilled ==> x.val.id != ints[i].val.id
      ensures Scanned(ints, i + 1, h + {ints[i]}, spilled, ints[i].start)
      ensures forall v :: v in h && Competes(isFloat, v.val) ==>
                Scanned(ints, i + 1, h + {ints[i]} - {v}, spilled + {v}, ints[i].start)
      ensures Scanned(ints, i + 1, h + {ints[i]} - {ints[i]}, spilled + {ints[i]}, ints[i].start)
    {
      assert ints[i] in ints;
      forall x | x in h + spilled
        ensures x.val.id != ints[i].val.id
      {
        var j :| 0 <= j < |ints| && ints[j] == x && j != i;
      }
      Next(ints, i);
      forall j | i + 1 <= j < |ints| && ints[j].val.Instruction?
        ensures ints[i].start <= ints[j].start
      {
        assert StartsBefore(ints[i], ints[j]);
      }
    }

    /** Arguments alone cannot fill the registers. */
    lemma EnoughInstructions(ints: seq<LiveInterval>, i: nat, h: set<LiveInterval>, spilled: set<LiveInterval>,
                             last: int,
                             crowded: seq<LiveInterval>, assign: map<RegValue, int>)
      requires ARG_MAX_REGS < |crowded| && SortedBy(crowded, EndsBefore) && i <= |ints|
      requires Scanned(ints, i, h, spilled, last) && Colors(h, assign, numRegs)
      requires forall x :: x in crowded ==> x in h
      requires forall x, y :: x in crowded && y in crowded && x != y ==> x.Overlaps(y)
      requires forall x :: x in PinnedIn(isFloat, ints) ==> x.val in assign && assign[x.val] == x.val.no + 1
      ensures exists k :: 0 <= k < |crowded| && crowded[k].val.Instruction?
    {
      ActiveSize(crowded);
      if forall x :: x in crowded ==> x.val.Argument? {
        forall x | x in crowded
          ensures x in PinnedIn(isFloat, ints)
        {
          assert x in h + spilled;
        }
        Pigeonhole(ToSet(crowded), assign, ARG_MAX_REGS);
        assert false;
      }
      var x :| x in crowded && x.val.Instruction?;
      var k :| 0 <= k < |crowded| && crowded[k] == x;
    }

    /** Spilling the one that ends last leaves as good a choice as before. */
    lemma FurthestSpilled(ints: seq<LiveInterval>, i: nat, h: set<LiveInterval>, spilled: set<LiveInterval>, last: int,
                          crowded: seq<LiveInterval>, assign: map<RegValue, int>, victim: LiveInterval, n: nat)
      requires Scannable(ints) && i < |ints| && Scanned(ints, i, h, spilled, last) && Competes(isFloat, ints[i].val)
      requires Colors(h, assign, numRegs) && SortedBy(crowded, EndsBefore) && |crowded| == numRegs
      requires forall x :: x in crowded ==> x in h && x.Covers(ints[i].start)
      requires victim.val.Instruction? && (victim == ints[i] || victim in crowded)
      requires forall x :: (x in crowded && x.val.Instruction?) || x == ints[i] ==> x.end <= victim.end
      requires CanKeep(CompetingIn(isFloat, ints), PinnedIn(isFloat, ints), numRegs, spilled, n)
      ensures CanKeep(CompetingIn(isFloat, ints), PinnedIn(isFloat, ints), numRegs, spilled + {victim}, n)
    {
      hide Fits, CanKeep, Colors, SortedBy, Scanned, Scannable;
      var v, all, pinned := ints[i], CompetingIn(isFloat, ints), PinnedIn(isFloat, ints);
      ScannedNext(ints, i, h, spilled, last);
      SeenBefore(ints, i, h, spilled, last);
      ColorsFit(h, assign, numRegs);
      var pinnedThere, others := Crowd(crowded, v);
      assert h - pinned + pinned == h;
      SpillFurthest(all, pinned, numRegs, spilled, h - pinned, others + {v}, pinnedThere, victim, v.start, n);
    }

    lemma SeenBefore(ints: seq<LiveInterval>, i: nat, h: set<LiveInterval>, spilled: set<LiveInterval>, last: int)
      requires Scannable(ints) && i < |ints| && Scanned(ints, i, h, spilled, last) && Competes(isFloat, ints[i].val)
      ensures forall x :: x in CompetingIn(isFloat, ints) && x !in spilled && x.start < ints[i].start ==>
                x in h - PinnedIn(isFloat, ints)
      ensures PinnedIn(isFloat, ints) <= h <= PinnedIn(isFloat, ints) + CompetingIn(isFloat, ints) && h !! spilled
      ensures forall x :: x in h ==> (x.val.Argument? <==> x in PinnedIn(isFloat, ints))
      ensures ints[i] in CompetingIn(isFloat, ints)
    {
      assert ints[i] in ints;
      forall x | x in CompetingIn(isFloat, ints) && x !in spilled && x.start < ints[i].start
        ensures x in h
      {
        var j :| 0 <= j < |ints| && ints[j] == x;
        assert j > i ==> StartsBefore(ints[i], ints[j]);
        assert x == ints[..i][j];
      }
    }

    lemma NothingBetter(ints: seq<LiveInterval>, spilled: set<LiveInterval>, last: int, k: set<LiveInterval>)
      requires Scanned(ints, |ints|, held, spilled, last)
      requires k <= CompetingIn(isFloat, ints) && Fits(k + PinnedIn(isFloat, ints), numRegs)
      requires forall n :: CanKeep(CompetingIn(isFloat, ints), PinnedIn(isFloat, ints), numRegs, {}, n) ==>
                 CanKeep(CompetingIn(isFloat, ints), PinnedIn(isFloat, ints), numRegs, spilled, n)
      ensures |k| <= |held - PinnedIn(isFloat, ints)|
    {
      hide Fits;
      assert ints[..|ints|] == ints;
      var all, pinned := CompetingIn(isFloat, ints), PinnedIn(isFloat, ints);
      Keeps(all, pinned, numRegs, {}, |k|, k);
      var k' :| k' <= all && k' !! spilled && |k'| >= |k| && Fits(k' + pinned, numRegs);
      SubsetSize(k', held - pinned);
    }
  }

  lemma SameSize(a: set<LiveInterval>, b: set<LiveInterval>)
    requires a <= b && |b| <= |a|
    ensures a == b
  {
    assert b == a + (b - a);
  }

  /** The arguments and the other values among `crowded`. */
  lemma Crowd(crowded: seq<LiveInterval>, v: LiveInterval) returns (args: set<LiveInterval>, others: set<LiveInterval>)
    requires SortedBy(crowded, EndsBefore) && v !in crowded
    ensures forall x :: x in args <==> x in crowded && x.val.Argument?
    ensures forall x :: x in others <==> x in crowded && x.val.Instruction?
    ensures |others + {v}| + |args| == |crowded| + 1
  {
    args, others := set x | x in crowded && x.val.Argument?, set x | x in crowded && x.val.Instruction?;
    assert ToSet(crowded) == args + others;
    ActiveSize(crowded);
  }

  /** A sorted list repeats nothing. */
  lemma {:induction false} ActiveSize(active: seq<LiveInterval>)
    requires SortedBy(active, EndsBefore)
    ensures |ToSet(active)| == |active|
    decreases |active|
  {
    if active != [] {
      var front, x := active[..|active| - 1], active[|active| - 1];
      ActiveSize(front);
      assert active == front + [x];
      forall y | y in front
        ensures EndsBefore(y, x)
      {
        var j :| 0 <= j < |front| && front[j] == y;
        assert EndsBefore(active[j], active[|active| - 1]);
      }
      assert ToSet(active) == ToSet(front) + {x};
    }
  }

  ghost predicate HasRegister(regMap: map<RegValue, int>, s: set<LiveInterval>, r: int) {
    exists x :: x in s && x.val in regMap && regMap[x.val] == r
  }

  /** If every register is taken, there are as many active intervals as registers. */
  lemma {:induction false} AllTaken(regMap: map<RegValue, int>, s: set<LiveInterval>, n: nat)
    requires forall x :: x in s ==> x.val in regMap
    requires forall r :: 1 <= r <= n ==> HasRegister(regMap, s, r)
    ensures n <= |s|
    decreases n
  {
    if n > 0 {
      assert HasRegister(regMap, s, n);
      var x :| x in s && regMap[x.val] == n;
      var rest := set y | y in s && regMap[y.val] != n;
      forall r | 1 <= r <= n - 1
        ensures HasRegister(regMap, rest, r)
      {
        assert HasRegister(regMap, s, r);
        var y :| y in s && regMap[y.val] == r;
        assert y in rest;
      }
      AllTaken(regMap, rest, n - 1);
      SubsetSize(rest + {x}, s);
    }
  }

  lemma Full(held: set<LiveInterval>, used: seq<bool>, regMap: map<RegValue, int>, active: seq<LiveInterval>, regs: nat,
             p: int)
    requires Consistent(held, used, regMap, active, regs, p, p)
    ensures |used| == regs + 1 && |active| <= regs
    ensures |active| < regs ==> exists r :: 1 <= r <= regs && !used[r]
    ensures forall x :: x in active ==> x in held && x.Covers(p)
    ensures SortedBy(active, EndsBefore) && Colors(held, regMap, regs)
  {
    ActiveSize(active);
    forall x, y | x in active && y in active && x != y
      ensures regMap[x.val] != regMap[y.val]
    {
      ActiveDiffer(held, used, regMap, active, regs, p, p, x, y);
    }
    Pigeonhole(ToSet(active), regMap, regs);
    if forall r :: 1 <= r <= regs ==> used[r] {
      forall r | 1 <= r <= regs
        ensures HasRegister(regMap, ToSet(active), r)
      {
        assert Takes(regMap, active, r);
        var x :| x in active && x.val in regMap && regMap[x.val] == r;
        assert x in ToSet(active);
      }
      AllTaken(regMap, ToSet(active), regs);
    }
  }

  // ----- the tables -----

  lemma NothingHeld(used: seq<bool>, regMap: map<RegValue, int>, active: seq<LiveInterval>, regs: nat)
    requires used == seq(regs + 1, i => false) && regMap == map[] && active == []
    ensures Consistent({}, used, regMap, active, regs, 0, 0)
  {
  }

  lemma Shape(held: set<LiveInterval>, used: seq<bool>, regMap: map<RegValue, int>, active: seq<LiveInterval>,
              regs: nat, lo: int, hi: int)
    requires Consistent(held, used, regMap, active, regs, lo, hi)
    ensures SortedBy(active, EndsBefore) && forall x :: x in active ==> x in held && x.val in regMap
    ensures |used| == regs + 1 && Mapped(held, regMap)
  {
  }

  lemma TakesMore(regMap: map<RegValue, int>, active: seq<LiveInterval>, active': seq<LiveInterval>, v: LiveInterval,
                  reg: int, r: int)
    requires ToSet(active') == ToSet(active) + {v} && forall x :: x in active ==> x.val != v.val
    ensures Takes(regMap[v.val := reg], active', r) <==> Takes(regMap, active, r) || r == reg
  {
    var regMap' := regMap[v.val := reg];
    assert v in ToSet(active');
    if Takes(regMap', active', r) {
      var x :| x in active' && x.val in regMap' && regMap'[x.val] == r;
      assert x in ToSet(active');
    }
    if Takes(regMap, active, r) {
      var x :| x in active && x.val in regMap && regMap[x.val] == r;
      assert x in ToSet(active) && x in ToSet(active');
    }
  }

  /** Giving a free register to an interval that starts at the current position. */
  lemma Assign(held: set<LiveInterval>, used: seq<bool>, regMap: map<RegValue, int>, active: seq<LiveInterval>,
               active': seq<LiveInterval>, regs: nat, p: int, v: LiveInterval, reg: int)
    requires Consistent(held, used, regMap, active, regs, p, p)
    requires v.start == p <= v.end && (forall x :: x in held ==> x.val.id != v.val.id)
    requires 1 <= reg <= regs && !used[reg]
    requires SortedBy(active', EndsBefore) && ToSet(active') == ToSet(active) + {v}
    ensures Consistent(held + {v}, used[reg := true], regMap[v.val := reg], active', regs, p, p)
  {
    var held', regMap' := held + {v}, regMap[v.val := reg];
    forall r | 1 <= r <= regs
      ensures used[reg := true][r] <==> Takes(regMap', active', r)
    {
      TakesMore(regMap, active, active', v, reg, r);
    }
    forall x, y | x in held' && y in held' && x != y && x.Overlaps(y)
      ensures regMap'[x.val] != regMap'[y.val]
    {
      if x == v || y == v {
        var z := if x == v then y else x;
        assert z in active;
        assert Takes(regMap, active, regMap[z.val]);
      }
    }
    forall x
      ensures x in active' <==> x in active || x == v
    {
      assert x in ToSet(active') <==> x in ToSet(active) + {v};
    }
    MapMore(held, regMap, v, reg);
  }

  lemma MapMore(held: set<LiveInterval>, regMap: map<RegValue, int>, v: LiveInterval, reg: int)
    requires Mapped(held, regMap) && forall x :: x in held ==> x.val.id != v.val.id
    ensures Mapped(held + {v}, regMap[v.val := reg])
  {
  }

  /** Active intervals are all live at the current position, so their registers differ. */
  lemma ActiveDiffer(held: set<LiveInterval>, used: seq<bool>, regMap: map<RegValue, int>, active: seq<LiveInterval>,
                     regs: nat, lo: int, hi: int, x: LiveInterval, y: LiveInterval)
    requires Consistent(held, used, regMap, active, regs, lo, hi) && x in active && y in active && x != y
    ensures x.val in regMap && y.val in regMap && regMap[x.val] != regMap[y.val]
  {
    assert x.Overlaps(y);
  }

  lemma Widen(held: set<LiveInterval>, used: seq<bool>, regMap: map<RegValue, int>, active: seq<LiveInterval>,
              regs: nat, p: int, q: int)
    requires Consistent(held, used, regMap, active, regs, p, p) && p <= q
    ensures Consistent(held, used, regMap, active, regs, p, q)
  {
  }

  lemma Narrow(held: set<LiveInterval>, used: seq<bool>, regMap: map<RegValue, int>, active: seq<LiveInterval>,
               regs: nat, p: int, q: int)
    requires Consistent(held, used, regMap, active, regs, p, q) && p <= q
    requires forall j :: 0 <= j < |active| ==> q <= active[j].end
    ensures Consistent(held, used, regMap, active, regs, q, q)
  {
  }

  lemma RemoveAt(active: seq<LiveInterval>, i: nat)
    requires SortedBy(active, EndsBefore) && i < |active|
    ensures SortedBy(active[..i] + active[i + 1..], EndsBefore)
    ensures forall x :: x in active[..i] + active[i + 1..] <==> x in active && x != active[i]
  {
    var rest := active[..i] + active[i + 1..];
    forall x
      ensures x in rest <==> x in active && x != active[i]
    {
      if x in active && x != active[i] {
        var j :| 0 <= j < |active| && active[j] == x;
        assert rest[if j < i then j else j - 1] == x;
      }
      if x in rest {
        var j :| 0 <= j < |rest| && rest[j] == x;
        assert active[if j < i then j else j + 1] == x;
        assert j < i ==> EndsBefore(active[j], active[i]);
        assert j >= i ==> EndsBefore(active[i], active[j + 1]);
      }
    }
  }

  /** Dropping one active interval that is over. */
  lemma Expire(held: set<LiveInterval>, used: seq<bool>, regMap: map<RegValue, int>, active: seq<LiveInterval>,
               regs: nat, p: int, q: int, i: nat)
    requires Consistent(held, used, regMap, active, regs, p, q) && i < |active| && active[i].end < q
    ensures active[i].val in regMap && 1 <= regMap[active[i].val] < |used|
    ensures Consistent(held, used[regMap[active[i].val] := false], regMap, active[..i] + active[i + 1..], regs, p, q)
  {
    var v, rest := active[i], active[..i] + active[i + 1..];
    RemoveAt(active, i);
    assert v in active;
    var reg := regMap[v.val];
    forall r | 1 <= r <= regs
      ensures used[reg := false][r] <==> Takes(regMap, rest, r)
    {
      if r != reg && Takes(regMap, active, r) {
        var x :| x in active && x.val in regMap && regMap[x.val] == r;
        assert x in rest;
      }
      if Takes(regMap, rest, r) {
        var x :| x in rest && x.val in regMap && regMap[x.val] == r;
        ActiveDiffer(held, used, regMap, active, regs, p, q, x, v);
        assert Takes(regMap, active, r);
      }
    }
  }

  lemma LastInstruction(active: seq<LiveInterval>, it: nat)
    requires SortedBy(active, EndsBefore) && it < |active| && active[it].val.Instruction?
    requires forall j :: it < j < |active| ==> active[j].val.Argument?
    ensures forall x :: x in active && x.val.Instruction? ==> x.end <= active[it].end
  {
    forall x | x in active && x.val.Instruction?
      ensures x.end <= active[it].end
    {
      var j :| 0 <= j < |active| && active[j] == x;
      if j < it {
        assert EndsBefore(active[j], active[it]);
      }
    }
  }

  /** Handing the register of `u` to `v`, which starts at the current position. */
  lemma Evict(held: set<LiveInterval>, used: seq<bool>, regMap: map<RegValue, int>, active: seq<LiveInterval>,
              active': seq<LiveInterval>, regs: nat, p: int, u: LiveInterval, v: LiveInterval)
    requires Consistent(held, used, regMap, active, regs, p, p) && u in active && u.val in regMap
    requires v.start == p <= v.end && forall x :: x in held ==> x.val.id != v.val.id
    requires SortedBy(active', EndsBefore) && forall x :: x in active' <==> x == v || (x in active && x != u)
    ensures Consistent(held - {u} + {v}, used, (regMap - {u.val})[v.val := regMap[u.val]], active', regs, p, p)
  {
    var reg := regMap[u.val];
    var held', regMap' := held - {u} + {v}, (regMap - {u.val})[v.val := reg];
    assert forall x :: x in held && x != u ==> x.val in regMap' && regMap'[x.val] == regMap[x.val];
    forall r | 1 <= r <= regs
      ensures used[r] <==> Takes(regMap', active', r)
    {
      if Takes(regMap, active, r) {
        var x :| x in active && x.val in regMap && regMap[x.val] == r;
        var y := if x == u then v else x;
        assert y in active' && regMap'[y.val] == r;
      }
      if Takes(regMap', active', r) {
        var x :| x in active' && x.val in regMap' && regMap'[x.val] == r;
        var y := if x == v then u else x;
        assert y in active && regMap[y.val] == r;
      }
    }
    forall x, y | x in held' && y in held' && x != y && x.Overlaps(y)
      ensures regMap'[x.val] != regMap'[y.val]
    {
      if x == v || y == v {
        var z := if x == v then y else x;
        assert z in active;
        ActiveDiffer(held, used, regMap, active, regs, p, p, z, u);
      }
    }
    MapSwap(held, regMap, u, v, reg);
  }

  lemma Untouched(held: set<LiveInterval>, regMap: map<RegValue, int>, u: LiveInterval, v: LiveInterval, reg: int)
    requires Mapped(held, regMap) && u in held && forall x :: x in held ==> x.val.id != v.val.id
    ensures forall x :: x in held && x != u ==>
              x.val in regMap && x.val in (regMap - {u.val})[v.val := reg] &&
              (regMap - {u.val})[v.val := reg][x.val] == regMap[x.val]
  {
  }

  lemma MapSwap(held: set<LiveInterval>, regMap: map<RegValue, int>, u: LiveInterval, v: LiveInterval, reg: int)
    requires Mapped(held, regMap) && u in held && forall x :: x in held ==> x.val.id != v.val.id
    ensures Mapped(held - {u} + {v}, (regMap - {u.val})[v.val := reg])
  {
  }
}
