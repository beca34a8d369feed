/** Live intervals, register assignments, and the exchange argument behind linear scan. */
module Intervals {
  import opened Basics

  datatype Class = IntClass | FloatClass | OtherClass

  /** A value that may occupy a register. `id` stands for its address, which breaks ties in the orders below. */
  datatype RegValue =
    | Argument(id: nat, no: nat, cls: Class)
    | Instruction(id: nat, cls: Class, isVoid: bool, isAlloca: bool, isCmp: bool, uses: nat, usedByBranch: bool)

  datatype LiveInterval = LiveInterval(start: int, end: int, val: RegValue) {
    predicate Covers(t: int) {
      start <= t <= end
    }

    predicate Overlaps(other: LiveInterval) {
      start <= other.end && other.start <= end
    }
  }

  /** The order of the intervals that are scanned: arguments first, then by start. */
  predicate StartsBefore(a: LiveInterval, b: LiveInterval) {
    if a.val.Argument? != b.val.Argument? then a.val.Argument?
    else if a.start != b.start then a.start < b.start
    else a.val.id < b.val.id
  }

  ghost predicate SortedBy(s: seq<LiveInterval>, less: (LiveInterval, LiveInterval) -> bool) {
    forall i, j :: 0 <= i < j < |s| ==> less(s[i], s[j])
  }

  /** What the liveness analysis hands over: one interval per value, in order; arguments are live from position 0 and
      everything else starts later. */
  ghost predicate Scannable(ints: seq<LiveInterval>) {
    && SortedBy(ints, StartsBefore)
    && (forall i, j :: 0 <= i < j < |ints| ==> ints[i].val.id != ints[j].val.id)
    && (forall x :: x in ints ==> x.start <= x.end && (if x.val.Argument? then x.start == 0 else 0 < x.start))
    && (forall x, y :: x in ints && y in ints && x.val.Argument? && y.val.Argument? && x.val.no == y.val.no ==> x == y)
  }

  function Covering(s: set<LiveInterval>, t: int): set<LiveInterval> {
    set x | x in s && x.Covers(t)
  }

  /** At every position at most `regs` of the intervals are live. */
  ghost predicate Fits(s: set<LiveInterval>, regs: nat) {
    forall t :: |Covering(s, t)| <= regs
  }

  /** `assign` gives every interval of `s` one of the registers 1..regs, never shared by overlapping intervals. */
  ghost predicate Colors(s: set<LiveInterval>, assign: map<RegValue, int>, regs: nat) {
    && (forall x :: x in s ==> x.val in assign && 1 <= assign[x.val] <= regs)
    && (forall x, y :: x in s && y in s && x != y && x.Overlaps(y) ==> assign[x.val] != assign[y.val])
  }

  /** Different registers out of 1..n: no more than n values. */
  lemma {:induction false} Pigeonhole(s: set<LiveInterval>, assign: map<RegValue, int>, n: nat)
    requires forall x :: x in s ==> x.val in assign && 1 <= assign[x.val] <= n
    requires forall x, y :: x in s && y in s && x != y ==> assign[x.val] != assign[y.val]
    ensures |s| <= n
    decreases n
  {
    if s != {} {
      var y :| y in s;
      assert 1 <= assign[y.val] <= n;
      if x :| x in s && assign[x.val] == n {
        Pigeonhole(s - {x}, assign, n - 1);
      } else {
        Pigeonhole(s, assign, n - 1);
      }
    }
  }

  /** Colored intervals fit. */
  lemma ColorsFit(s: set<LiveInterval>, assign: map<RegValue, int>, regs: nat)
    requires Colors(s, assign, regs)
    ensures Fits(s, regs)
  {
    forall t
      ensures |Covering(s, t)| <= regs
    {
      Pigeonhole(Covering(s, t), assign, regs);
    }
  }

  /** Out of the candidates `all`, at least `n` can be kept beside the pinned ones without touching `spilled`. */
  ghost predicate CanKeep(all: set<LiveInterval>, pinned: set<LiveInterval>, regs: nat, spilled: set<LiveInterval>,
                          n: nat) {
    exists k :: k <= all && k !! spilled && |k| >= n && Fits(k + pinned, regs)
  }

  /** The exchange: swapping `u` for `u'` in a set that fits, when both are live at `p`, `u` ends no earlier, and
      everything that starts before `p` fits together with `u'`. */
  lemma SwapFits(k: set<LiveInterval>, pinned: set<LiveInterval>, regs: nat, kept: set<LiveInterval>,
                 u: LiveInterval, u': LiveInterval, p: int)
    requires Fits(k + pinned, regs) && Fits(kept + pinned, regs)
    requires u in k && u' !in k && u.Covers(p) && u'.Covers(p) && u'.end <= u.end
    requires u !in pinned && u' !in pinned
    requires forall x :: x in k + {u'} && x.start < p ==> x in kept
    ensures Fits(k - {u} + {u'} + pinned, regs)
  {
    var k' := k - {u} + {u'};
    forall t
      ensures |Covering(k' + pinned, t)| <= regs
    {
      if t < p {
        SubsetSize(Covering(k' + pinned, t), Covering(kept + pinned, t));
      } else if u'.Covers(t) {
        assert Covering(k' + pinned, t) == Covering(k + pinned, t) - {u} + {u'};
        assert u in Covering(k + pinned, t);
      } else {
        SubsetSize(Covering(k' + pinned, t), Covering(k + pinned, t));
      }
    }
  }

  /** Too many intervals live at `p`: some candidate is missing from any set that fits. */
  lemma SomeoneMissing(k: set<LiveInterval>, pinned: set<LiveInterval>, regs: nat,
                       crowd: set<LiveInterval>, pinnedThere: set<LiveInterval>, p: int) returns (u: LiveInterval)
    requires Fits(k + pinned, regs)
    requires forall x :: x in crowd + pinnedThere ==> x.Covers(p)
    requires pinnedThere <= pinned && crowd !! pinnedThere && |crowd| + |pinnedThere| > regs
    ensures u in crowd && u !in k
  {
    assert |crowd + pinnedThere| == |crowd| + |pinnedThere|;
    if forall x :: x in crowd ==> x in k {
      SubsetSize(crowd + pinnedThere, Covering(k + pinned, p));
      assert false;
    }
    u :| u in crowd && u !in k;
  }

  /** Spilling the interval that ends last among those live at `p` costs nothing. */
  lemma SpillFurthest(all: set<LiveInterval>, pinned: set<LiveInterval>, regs: nat, spilled: set<LiveInterval>,
                      kept: set<LiveInterval>, crowd: set<LiveInterval>, pinnedThere: set<LiveInterval>,
                      u: LiveInterval, p: int, n: nat)
    requires CanKeep(all, pinned, regs, spilled, n) && Fits(kept + pinned, regs)
    requires forall x :: x in crowd + pinnedThere ==> x.Covers(p)
    requires pinnedThere <= pinned && crowd !! pinned && |crowd| + |pinnedThere| > regs
    requires crowd <= all && crowd !! spilled && u in crowd
    requires forall x :: x in crowd ==> x.end <= u.end
    requires forall x :: x in all && x !in spilled && x.start < p ==> x in kept
    ensures CanKeep(all, pinned, regs, spilled + {u}, n)
  {
    hide Fits, CanKeep;
    var k := Keepable(all, pinned, regs, spilled, n);
    var k' := k;
    if u in k {
      var u' := SomeoneMissing(k, pinned, regs, crowd, pinnedThere, p);
      SwapFits(k, pinned, regs, kept, u, u', p);
      k' := SwapOne(all, k, spilled, u, u');
    }
    Keeps(all, pinned, regs, spilled + {u}, n, k');
  }

  lemma Keepable(all: set<LiveInterval>, pinned: set<LiveInterval>, regs: nat, spilled: set<LiveInterval>, n: nat)
      returns (k: set<LiveInterval>)
    requires CanKeep(all, pinned, regs, spilled, n)
    ensures k <= all && k !! spilled && |k| >= n && Fits(k + pinned, regs)
  {
    hide Fits;
    k :| k <= all && k !! spilled && |k| >= n && Fits(k + pinned, regs);
  }

  lemma SwapOne(all: set<LiveInterval>, k: set<LiveInterval>, spilled: set<LiveInterval>, u: LiveInterval,
                u': LiveInterval)
      returns (k': set<LiveInterval>)
    requires k <= all && k !! spilled && u in k && u' in all && u' !in k && u' !in spilled
    ensures k' == k - {u} + {u'} && k' <= all && k' !! spilled + {u} && |k'| == |k|
  {
    k' := k - {u} + {u'};
  }

  lemma Keeps(all: set<LiveInterval>, pinned: set<LiveInterval>, regs: nat, spilled: set<LiveInterval>, n: nat,
              k: set<LiveInterval>)
    requires k <= all && k !! spilled && |k| >= n && Fits(k + pinned, regs)
    ensures CanKeep(all, pinned, regs, spilled, n)
  {
  }
}
