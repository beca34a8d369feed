/** The use-def heap: every value keeps the list of the operand slots that hold it.

    Values and users are one class here; a value that uses no others has no operands. */
module UseDef {

  /** Operand slot `argNo` of `user`. */
  datatype Use = Use(user: Value, argNo: nat)

  /** How often the list has `x`. */
  function Count(s: seq<Use>, x: Use): nat {
    if s == [] then 0 else Count(s[..|s| - 1], x) + if s[|s| - 1] == x then 1 else 0
  }

  /** The list without any occurrence of `x`. */
  function Without(s: seq<Use>, x: Use): seq<Use> {
    if s == [] then []
    else if s[|s| - 1] == x then Without(s[..|s| - 1], x)
    else Without(s[..|s| - 1], x) + [s[|s| - 1]]
  }

  lemma CountSnoc(s: seq<Use>, x: Use, y: Use)
    ensures Count(s + [x], y) == Count(s, y) + if x == y then 1 else 0
  {
    assert (s + [x])[..|s|] == s;
  }

  lemma {:induction false} CountWithout(s: seq<Use>, x: Use, y: Use)
    ensures Count(Without(s, x), y) == if x == y then 0 else Count(s, y)
    decreases |s|
  {
    if s != [] {
      CountWithout(s[..|s| - 1], x, y);
      if s[|s| - 1] != x {
        CountSnoc(Without(s[..|s| - 1], x), s[|s| - 1], y);
      }
    }
  }

  lemma {:induction false} CountMember(s: seq<Use>, x: Use)
    ensures x in s <==> Count(s, x) > 0
    decreases |s|
  {
    if s != [] {
      CountMember(s[..|s| - 1], x);
      assert s == s[..|s| - 1] + [s[|s| - 1]];
    }
  }

  lemma {:induction false} WithoutLength(s: seq<Use>, x: Use)
    ensures |Without(s, x)| + Count(s, x) == |s|
    ensures forall y :: y in Without(s, x) ==> y in s
    decreases |s|
  {
    if s != [] {
      WithoutLength(s[..|s| - 1], x);
    }
  }

  // ----- the heap at one moment -----

  datatype Snapshot = Snapshot(ops: map<Value, seq<Value?>>, uses: map<Value, seq<Use>>) {
    predicate Holds(u: Value, i: nat, v: Value) {
      u in ops && i < |ops[u]| && ops[u][i] == v
    }

    function Times(v: Value, u: Value, i: nat): nat {
      if v in uses then Count(uses[v], Use(u, i)) else 0
    }

    /** Both tables speak of the same values. */
    ghost predicate Closed() {
      && ops.Keys == uses.Keys
      && (forall u, i :: u in ops && 0 <= i < |ops[u]| && ops[u][i] != null ==> ops[u][i] in ops)
      && (forall v, x :: v in uses && x in uses[v] ==> x.user in ops)
    }

    /** Slot i of u holds v exactly when (u, i) is once in the use list of v. */
    ghost predicate TwoWay() {
      Closed() && forall v, u, i: nat {:trigger Times(v, u, i)} :: v in ops && u in ops ==>
        Times(v, u, i) == if Holds(u, i, v) then 1 else 0
    }

    function WithUse(v: Value, x: Use): Snapshot
      requires v in uses
    {
      this.(uses := uses[v := uses[v] + [x]])
    }

    function WithoutUse(v: Value, x: Use): Snapshot
      requires v in uses
    {
      this.(uses := uses[v := Without(uses[v], x)])
    }

    function WithOps(u: Value, o: seq<Value?>): Snapshot {
      this.(ops := ops[u := o])
    }
  }

  lemma TimesAdded(s: Snapshot, w: Value, x: Use, v: Value, u: Value, i: nat)
    requires w in s.uses
    ensures s.WithUse(w, x).Times(v, u, i) == s.Times(v, u, i) + if v == w && x == Use(u, i) then 1 else 0
  {
    CountSnoc(s.uses[w], x, Use(u, i));
  }

  lemma TimesRemoved(s: Snapshot, w: Value, x: Use, v: Value, u: Value, i: nat)
    requires w in s.uses
    ensures s.WithoutUse(w, x).Times(v, u, i) == if v == w && x == Use(u, i) then 0 else s.Times(v, u, i)
  {
    CountWithout(s.uses[w], x, Use(u, i));
  }

  /** Setting a slot: out of the old value's list, into the new one's. */
  function SetOp(s: Snapshot, u: Value, i: nat, v: Value?): Snapshot
    requires s.Closed() && u in s.ops && i < |s.ops[u]| && (v != null ==> v in s.ops)
  {
    var x := s.ops[u][i];
    var s1 := if x != null then s.WithoutUse(x, Use(u, i)) else s;
    var s2 := if v != null then s1.WithUse(v, Use(u, i)) else s1;
    s2.WithOps(u, s.ops[u][i := v])
  }

  lemma SetOpClosed(s: Snapshot, u: Value, i: nat, v: Value?)
    requires s.TwoWay() && u in s.ops && i < |s.ops[u]| && (v != null ==> v in s.ops)
    ensures SetOp(s, u, i, v).Closed()
  {
    var t := SetOp(s, u, i, v);
    forall w, x | w in t.uses && x in t.uses[w]
      ensures x.user in t.ops
    {
      WithoutLength(s.uses[w], Use(u, i));
    }
  }

  lemma SetOpKeeps(s: Snapshot, u: Value, i: nat, v: Value?)
    requires s.TwoWay() && u in s.ops && i < |s.ops[u]| && (v != null ==> v in s.ops)
    ensures SetOp(s, u, i, v).TwoWay()
  {
    hide Snapshot.Closed, Snapshot.Times;
    SetOpClosed(s, u, i, v);
    var t := SetOp(s, u, i, v);
    forall w, y, j: nat | w in t.ops && y in t.ops
      ensures t.Times(w, y, j) == if t.Holds(y, j, w) then 1 else 0
    {
      SetOpTimes(s, u, i, v, w, y, j);
      assert s.Times(w, y, j) == if s.Holds(y, j, w) then 1 else 0;
    }
  }

  lemma SetOpTimes(s: Snapshot, u: Value, i: nat, v: Value?, w: Value, y: Value, j: nat)
    requires s.Closed() && u in s.ops && i < |s.ops[u]| && (v != null ==> v in s.ops)
    requires s.Times(w, u, i) == if s.Holds(u, i, w) then 1 else 0
    ensures SetOp(s, u, i, v).Times(w, y, j) ==
            if y == u && j == i then (if w == v then 1 else 0) else s.Times(w, y, j)
  {
    var x := s.ops[u][i];
    var s1 := if x != null then s.WithoutUse(x, Use(u, i)) else s;
    if x != null {
      TimesRemoved(s, x, Use(u, i), w, y, j);
    }
    if v != null {
      TimesAdded(s1, v, Use(u, i), w, y, j);
    }
  }

  // ----- removing an operand -----

  ghost predicate AllSet(o: seq<Value?>) {
    forall i :: 0 <= i < |o| ==> o[i] != null
  }

  /** The slots idx + 1, ..., k - 1 of `u` have moved down by one in the use lists. */
  ghost function ShiftTo(s: Snapshot, u: Value, idx: nat, k: nat): (t: Snapshot)
    requires s.Closed() && u in s.ops && AllSet(s.ops[u]) && idx < k <= |s.ops[u]|
    ensures t.ops == s.ops && t.uses.Keys == s.uses.Keys
  {
    if k == idx + 1 then s
    else
      var x := s.ops[u][k - 1];
      ShiftTo(s, u, idx, k - 1).WithoutUse(x, Use(u, k - 1)).WithUse(x, Use(u, k - 2))
  }

  /** How often a slot is listed after the shift: slot `idx` may now be listed for two values, or twice for one. */
  ghost function ShiftedTimes(s: Snapshot, u: Value, idx: nat, k: nat, v: Value, y: Value, j: nat): nat
    requires u in s.ops && idx < k <= |s.ops[u]|
  {
    if y != u || j < idx || j >= k then s.Times(v, y, j)
    else if j == idx then s.Times(v, u, idx) + (if k > idx + 1 && s.Holds(u, idx + 1, v) then 1 else 0)
    else if j < k - 1 then (if s.Holds(u, j + 1, v) then 1 else 0)
    else 0
  }

  lemma {:induction false} ShiftTimes(s: Snapshot, u: Value, idx: nat, k: nat, v: Value, y: Value, j: nat)
    requires s.TwoWay() && u in s.ops && AllSet(s.ops[u]) && idx < k <= |s.ops[u]| && v in s.ops
    ensures ShiftTo(s, u, idx, k).Times(v, y, j) == ShiftedTimes(s, u, idx, k, v, y, j)
    decreases k
  {
    hide Snapshot.Times, Snapshot.WithUse, Snapshot.WithoutUse;
    if k > idx + 1 {
      var x := s.ops[u][k - 1];
      var t := ShiftTo(s, u, idx, k - 1);
      ShiftTimes(s, u, idx, k - 1, v, y, j);
      assert s.Times(v, u, k - 1) == if s.Holds(u, k - 1, v) then 1 else 0;
      TimesRemoved(t, x, Use(u, k - 1), v, y, j);
      RemovedKeys(t, x, Use(u, k - 1));
      TimesAdded(t.WithoutUse(x, Use(u, k - 1)), x, Use(u, k - 2), v, y, j);
    }
  }

  lemma ShiftNone(s: Snapshot, u: Value, idx: nat)
    requires s.Closed() && u in s.ops && AllSet(s.ops[u]) && idx < |s.ops[u]|
    ensures ShiftTo(s, u, idx, idx + 1) == s
  {
  }

  lemma ShiftOne(s: Snapshot, u: Value, idx: nat, i: nat)
    requires s.Closed() && u in s.ops && AllSet(s.ops[u]) && idx < i < |s.ops[u]|
    ensures var x, t := s.ops[u][i], ShiftTo(s, u, idx, i);
            && x in t.uses && x in t.WithoutUse(x, Use(u, i)).uses
            && ShiftTo(s, u, idx, i + 1) == t.WithoutUse(x, Use(u, i)).WithUse(x, Use(u, i - 1))
  {
  }

  lemma RemovedKeys(t: Snapshot, x: Value, y: Use)
    requires x in t.uses
    ensures t.WithoutUse(x, y).uses.Keys == t.uses.Keys
  {
  }

  /** Removing slot `idx`: shift the later ones, then drop every listing of `idx` for the removed value. */
  ghost function RemoveOp(s: Snapshot, u: Value, idx: nat): Snapshot
    requires s.Closed() && u in s.ops && AllSet(s.ops[u]) && idx < |s.ops[u]|
  {
    var o := s.ops[u];
    ShiftTo(s, u, idx, |o|).WithoutUse(o[idx], Use(u, idx)).WithOps(u, o[..idx] + o[idx + 1..])
  }

  lemma RemoveOpTimes(s: Snapshot, u: Value, idx: nat, v: Value, y: Value, j: nat)
    requires s.TwoWay() && u in s.ops && AllSet(s.ops[u]) && idx < |s.ops[u]| && v in s.ops
    ensures RemoveOp(s, u, idx).Times(v, y, j) ==
            if v == s.ops[u][idx] && y == u && j == idx then 0 else ShiftedTimes(s, u, idx, |s.ops[u]|, v, y, j)
  {
    var o := s.ops[u];
    ShiftTimes(s, u, idx, |o|, v, y, j);
    TimesRemoved(ShiftTo(s, u, idx, |o|), o[idx], Use(u, idx), v, y, j);
  }

  ghost predicate NeighbourDiffers(o: seq<Value?>, idx: nat)
    requires idx < |o|
  {
    idx == |o| - 1 || o[idx] != o[idx + 1]
  }

  lemma RemoveOpHolds(s: Snapshot, u: Value, idx: nat, y: Value, j: nat, v: Value)
    requires s.Closed() && u in s.ops && AllSet(s.ops[u]) && idx < |s.ops[u]|
    ensures RemoveOp(s, u, idx).Holds(y, j, v) <==> s.Holds(y, if y == u && j >= idx then j + 1 else j, v)
  {
  }

  lemma {:induction false} ShiftClosed(s: Snapshot, u: Value, idx: nat, k: nat)
    requires s.Closed() && u in s.ops && AllSet(s.ops[u]) && idx < k <= |s.ops[u]|
    ensures ShiftTo(s, u, idx, k).Closed()
    decreases k
  {
    hide Snapshot.Closed, Snapshot.WithUse, Snapshot.WithoutUse;
    if k > idx + 1 {
      var x := s.ops[u][k - 1];
      var t := ShiftTo(s, u, idx, k - 1);
      ShiftClosed(s, u, idx, k - 1);
      OperandIn(s, u, k - 1);
      SameKeys(s, t);
      UseClosed(t, x, Use(u, k - 1), Use(u, k - 2));
    }
  }

  lemma SameKeys(s: Snapshot, t: Snapshot)
    requires s.Closed() && t.Closed() && t.ops == s.ops
    ensures t.uses.Keys == t.ops.Keys == s.ops.Keys
  {
  }

  lemma UseClosed(t: Snapshot, x: Value, gone: Use, new_: Use)
    requires t.Closed() && x in t.uses && new_.user in t.ops
    ensures t.WithoutUse(x, gone).Closed() && t.WithoutUse(x, gone).WithUse(x, new_).Closed()
  {
    WithoutLength(t.uses[x], gone);
  }

  lemma RemoveOpClosed(s: Snapshot, u: Value, idx: nat)
    requires s.Closed() && u in s.ops && AllSet(s.ops[u]) && idx < |s.ops[u]|
    ensures RemoveOp(s, u, idx).Closed()
  {
    var o := s.ops[u];
    ShiftClosed(s, u, idx, |o|);
    UseClosed(ShiftTo(s, u, idx, |o|), o[idx], Use(u, idx), Use(u, idx));
  }

  /** Removing an operand keeps operands and use lists in step exactly when the next operand is another value:
      otherwise that value's listing of the slot is dropped with the removed one. */
  lemma RemoveOpKeeps(s: Snapshot, u: Value, idx: nat)
    requires s.TwoWay() && u in s.ops && AllSet(s.ops[u]) && idx < |s.ops[u]|
    ensures RemoveOp(s, u, idx).TwoWay() <==> NeighbourDiffers(s.ops[u], idx)
  {
    hide Snapshot.Times, Snapshot.Closed, ShiftedTimes;
    var o, t := s.ops[u], RemoveOp(s, u, idx);
    RemoveOpClosed(s, u, idx);
    if NeighbourDiffers(o, idx) {
      forall v, y, j: nat | v in t.ops && y in t.ops
        ensures t.Times(v, y, j) == if t.Holds(y, j, v) then 1 else 0
      {
        RemoveOpTimes(s, u, idx, v, y, j);
        RemoveOpHolds(s, u, idx, y, j, v);
        RemovedListing(s, u, idx, v, y, j);
      }
    } else {
      IsClosed(s);
      OperandIn(s, u, idx);
      RemoveOpTimes(s, u, idx, o[idx], u, idx);
      RemoveOpHolds(s, u, idx, u, idx, o[idx]);
    }
  }

  lemma RemovedListing(s: Snapshot, u: Value, idx: nat, v: Value, y: Value, j: nat)
    requires s.TwoWay() && u in s.ops && AllSet(s.ops[u]) && idx < |s.ops[u]| && v in s.ops && y in s.ops
    requires NeighbourDiffers(s.ops[u], idx)
    ensures (if v == s.ops[u][idx] && y == u && j == idx then 0 else ShiftedTimes(s, u, idx, |s.ops[u]|, v, y, j)) ==
            if s.Holds(y, if y == u && j >= idx then j + 1 else j, v) then 1 else 0
  {
    assert s.Times(v, y, j) == if s.Holds(y, j, v) then 1 else 0;
    assert s.Times(v, u, idx) == if s.Holds(u, idx, v) then 1 else 0;
  }

  /** A user that holds the same value twice in a row. */
  function HoldsTwice(u: Value, v: Value): Snapshot {
    Snapshot(map[u := [v, v], v := []], map[u := [], v := [Use(u, 0), Use(u, 1)]])
  }

  /** Removing the first of two equal operands: the other one is still held, but no longer listed. */
  lemma RemovedWithNeighbour(u: Value, v: Value)
    requires u != v
    ensures var s := HoldsTwice(u, v);
            && s.TwoWay() && AllSet(s.ops[u]) && !RemoveOp(s, u, 0).TwoWay()
            && RemoveOp(s, u, 0).ops[u] == [v] && RemoveOp(s, u, 0).uses[v] == []
  {
    var s := HoldsTwice(u, v);
    var a, b := Use(u, 0), Use(u, 1);
    forall y, i: nat
      ensures Count([a, b], Use(y, i)) == if y == u && i < 2 then 1 else 0
    {
      CountTwo(a, b, Use(y, i));
    }
    assert s.TwoWay();
    WithoutAt([a, b], 1);
    assert ShiftTo(s, u, 0, 2).uses[v] == [a, a];
    CountTwo(a, a, a);
    WithoutLength([a, a], a);
    RemoveOpKeeps(s, u, 0);
  }

  lemma CountTwo(a: Use, b: Use, x: Use)
    ensures Count([a, b], x) == (if a == x then 1 else 0) + if b == x then 1 else 0
  {
    CountSnoc([], a, x);
    CountSnoc([a], b, x);
    assert [] + [a] == [a] && [a] + [b] == [a, b];
  }

  // ----- replacing uses -----

  function ReplaceIn(o: seq<Value?>, a: Value, b: Value?): seq<Value?> {
    seq(|o|, i requires 0 <= i < |o| => if o[i] == a then b else o[i])
  }

  /** Every slot is as in `s`, or held `a` there and now holds `b`. */
  ghost predicate PartlyReplaced(s: Snapshot, t: Snapshot, a: Value, b: Value?) {
    && t.ops.Keys == s.ops.Keys
    && (forall u :: u in s.ops ==> |t.ops[u]| == |s.ops[u]|)
    && (forall u, i :: u in s.ops && 0 <= i < |s.ops[u]| && i < |t.ops[u]| ==>
          t.ops[u][i] == s.ops[u][i] || (s.ops[u][i] == a && t.ops[u][i] == b))
  }

  lemma OneMoreReplaced(s: Snapshot, t: Snapshot, a: Value, b: Value?, u: Value, i: nat)
    requires t.Closed() && PartlyReplaced(s, t, a, b) && (b != null ==> b in t.ops) && t.Holds(u, i, a)
    ensures PartlyReplaced(s, SetOp(t, u, i, b), a, b)
  {
  }

  lemma NoUseLeft(s: Snapshot, t: Snapshot, a: Value, b: Value?)
    requires t.TwoWay() && PartlyReplaced(s, t, a, b) && a in t.uses && t.uses[a] == []
    ensures t.ops == map u | u in s.ops :: ReplaceIn(s.ops[u], a, b)
  {
    forall u | u in s.ops
      ensures t.ops[u] == ReplaceIn(s.ops[u], a, b)
    {
      forall i | 0 <= i < |s.ops[u]|
        ensures t.ops[u][i] == ReplaceIn(s.ops[u], a, b)[i]
      {
        assert t.Times(a, u, i) == 0;
      }
    }
  }

  lemma ListedHolds(t: Snapshot, a: Value, k: nat)
    requires t.TwoWay() && a in t.uses && k < |t.uses[a]|
    ensures var x := t.uses[a][k]; x.user in t.ops && t.Holds(x.user, x.argNo, a) && Count(t.uses[a], x) == 1
  {
    var x := t.uses[a][k];
    CountMember(t.uses[a], x);
    assert x.user in t.ops;
    assert t.Times(a, x.user, x.argNo) == if t.Holds(x.user, x.argNo, a) then 1 else 0;
  }

  lemma {:induction false} WithoutAt(s: seq<Use>, k: nat)
    requires k < |s| && Count(s, s[k]) == 1
    ensures Without(s, s[k]) == s[..k] + s[k + 1..]
    decreases |s|
  {
    var front, last := s[..|s| - 1], s[|s| - 1];
    if k == |s| - 1 {
      CountMember(front, last);
      WithoutAbsent(front, last);
    } else {
      CountMember(front, s[k]);
      assert front[k] == s[k] && last != s[k];
      WithoutAt(front, k);
      assert front[..k] == s[..k] && front[k + 1..] + [last] == s[k + 1..];
      assert Without(s, s[k]) == front[..k] + front[k + 1..] + [last];
    }
  }

  lemma {:induction false} WithoutAbsent(s: seq<Use>, x: Use)
    requires x !in s
    ensures Without(s, x) == s
    decreases |s|
  {
    if s != [] {
      WithoutAbsent(s[..|s| - 1], x);
    }
  }

  lemma SetOpShortens(t: Snapshot, a: Value, b: Value?, k: nat)
    requires t.TwoWay() && a in t.uses && k < |t.uses[a]| && a != b && (b != null ==> b in t.ops)
    ensures var x := t.uses[a][k];
            && x.user in t.ops && x.argNo < |t.ops[x.user]|
            && SetOp(t, x.user, x.argNo, b).uses[a] == t.uses[a][..k] + t.uses[a][k + 1..]
  {
    ListedHolds(t, a, k);
    WithoutAt(t.uses[a], k);
  }

  // ----- the objects -----

  class Value {
    const isPhi: bool
    var operands: seq<Value?>
    var useList: seq<Use>

    constructor (isPhi: bool)
      ensures operands == [] && useList == [] && this.isPhi == isPhi
    {
      this.isPhi := isPhi;
      operands, useList := [], [];
    }

    method AddUse(user: Value, argNo: nat, ghost all: set<Value>)
      requires this in all
      modifies this`useList
      ensures Snap(all) == old(Snap(all)).WithUse(this, Use(user, argNo))
    {
      ghost var s := Snap(all);
      useList := useList + [Use(user, argNo)];
      assert Snap(all).ops == s.ops;
      assert Snap(all).uses == s.uses[this := s.uses[this] + [Use(user, argNo)]];
    }

    /** Removes every occurrence. */
    method RemoveUse(user: Value, argNo: nat, ghost all: set<Value>)
      requires this in all
      modifies this`useList
      ensures Snap(all) == old(Snap(all)).WithoutUse(this, Use(user, argNo))
    {
      ghost var s := Snap(all);
      useList := Without(useList, Use(user, argNo));
      assert Snap(all).ops == s.ops;
      assert Snap(all).uses == s.uses[this := Without(s.uses[this], Use(user, argNo))];
    }

    method AssignOperands(o: seq<Value?>, ghost all: set<Value>)
      requires this in all
      modifies this`operands
      ensures Snap(all) == old(Snap(all)).WithOps(this, o)
    {
      ghost var s := Snap(all);
      operands := o;
      assert Snap(all).ops == s.ops[this := o];
      assert Snap(all).uses == s.uses;
    }

    method SetOperand(i: nat, v: Value?, ghost all: set<Value>)
      requires Snap(all).TwoWay() && this in all && i < |operands| && (v != null ==> v in all)
      modifies this`operands, all`useList
      ensures Snap(all) == SetOp(old(Snap(all)), this, i, v) && Snap(all).TwoWay()
    {
      hide Snapshot.TwoWay, Snapshot.Closed, Without;
      ghost var s := Snap(all);
      IsClosed(s);
      OperandIn(s, this, i);
      SetOpKeeps(s, this, i, v);
      var x := operands[i];
      if x != null {
        x.RemoveUse(this, i, all);
      }
      if v != null {
        v.AddUse(this, i, all);
      }
      assert operands == s.ops[this];
      AssignOperands(operands[i := v], all);
    }

    method AddOperand(v: Value, ghost all: set<Value>)
      requires Snap(all).TwoWay() && this in all && v in all
      modifies this`operands, all`useList
      ensures Snap(all).TwoWay() && operands == old(operands) + [v]
      ensures Snap(all).ops == old(Snap(all)).ops[this := operands]
    {
      ghost var s := Snap(all);
      AddOpKeeps(s, this, v);
      v.AddUse(this, |operands|, all);
      AssignOperands(operands + [v], all);
    }

    method RemoveAllOperands(ghost all: set<Value>)
      requires Snap(all).TwoWay() && this in all
      modifies this`operands, all`useList
      ensures Snap(all).TwoWay() && operands == [] && Snap(all).ops == old(Snap(all)).ops[this := []]
    {
      hide Snapshot.TwoWay, Snapshot.Closed;
      ghost var s := Snap(all);
      IsClosed(s);
      ClearNone(s, this);
      for i := 0 to |operands|
        invariant operands == s.ops[this] && Snap(all) == ClearTo(s, this, i)
      {
        OperandIn(s, this, i);
        var x := operands[i];
        if x != null {
          x.RemoveUse(this, i, all);
        }
      }
      ClearKeeps(s, this);
      AssignOperands([], all);
    }

    method RemoveOperand(idx: nat, ghost all: set<Value>)
      requires Snap(all).TwoWay() && this in all && idx < |operands| && AllSet(operands)
      modifies this`operands, all`useList
      ensures Snap(all) == RemoveOp(old(Snap(all)), this, idx) && operands == old(operands[..idx] + operands[idx + 1..])
      ensures Snap(all).TwoWay() <==> old(NeighbourDiffers(operands, idx))
    {
      hide Snapshot.TwoWay, Snapshot.Closed, Without, ShiftTo, Snapshot.WithUse, Snapshot.WithoutUse, NeighbourDiffers;
      ghost var s := Snap(all);
      IsClosed(s);
      RemoveOpKeeps(s, this, idx);
      ShiftNone(s, this, idx);
      for i := idx + 1 to |operands|
        invariant operands == s.ops[this] && Snap(all) == ShiftTo(s, this, idx, i)
      {
        OperandIn(s, this, i);
        ShiftOne(s, this, idx, i);
        operands[i].RemoveUse(this, i, all);
        operands[i].AddUse(this, i - 1, all);
      }
      OperandIn(s, this, idx);
      operands[idx].RemoveUse(this, idx, all);
      AssignOperands(operands[..idx] + operands[idx + 1..], all);
    }

    /** Every use of this value becomes a use of `newVal`. */
    method ReplaceAllUseWith(newVal: Value?, ghost all: set<Value>)
      requires Snap(all).TwoWay() && this in all && (newVal != null ==> newVal in all)
      modifies all`operands, all`useList
      ensures Snap(all).TwoWay()
      ensures this == newVal ==> Snap(all) == old(Snap(all))
      ensures this != newVal ==> useList == []
      ensures this != newVal ==>
                Snap(all).ops == map u | u in old(Snap(all)).ops :: ReplaceIn(old(Snap(all)).ops[u], this, newVal)
    {
      hide Snapshot.TwoWay, Snapshot.Closed, SetOp;
      if this == newVal {
        return;
      }
      ghost var s := Snap(all);
      NothingReplaced(s, this, newVal);
      while |useList| > 0
        invariant Snap(all).TwoWay() && PartlyReplaced(s, Snap(all), this, newVal)
        decreases |useList|
      {
        ghost var t := Snap(all);
        assert useList == t.uses[this];
        IsClosed(t);
        ListedHolds(t, this, 0);
        SetOpShortens(t, this, newVal, 0);
        var use := useList[0];
        OneMoreReplaced(s, t, this, newVal, use.user, use.argNo);
        use.user.SetOperand(use.argNo, newVal, all);
        assert useList == Snap(all).uses[this];
      }
      NoUseLeft(s, Snap(all), this, newVal);
    }

    /** The uses that satisfy `should` become uses of `newVal`. */
    method ReplaceUseWithIf(newVal: Value?, should: Use -> bool, ghost all: set<Value>)
      requires Snap(all).TwoWay() && this in all && (newVal != null ==> newVal in all)
      modifies all`operands, all`useList
      ensures Snap(all).TwoWay()
      ensures this == newVal ==> Snap(all) == old(Snap(all))
      ensures this != newVal ==> ReplacedWhere(old(Snap(all)), Snap(all), this, newVal, should)
    {
      hide Snapshot.TwoWay, Snapshot.Closed, SetOp, PartlyReplaced;
      if this == newVal {
        return;
      }
      ghost var s := Snap(all);
      var k := 0;
      WhereStart(s, this, newVal, should);
      while k < |useList|
        invariant k <= |useList| && Snap(all).TwoWay() && PartlyWhere(s, Snap(all), this, newVal, should)
        invariant forall j :: 0 <= j < k ==> !should(useList[j])
        decreases |useList| - k
      {
        var use := useList[k];
        if !should(use) {
          k := k + 1;
          continue;
        }
        ghost var t := Snap(all);
        assert useList == t.uses[this];
        IsClosed(t);
        ListedHolds(t, this, k);
        SetOpShortens(t, this, newVal, k);
        WhereMore(s, t, this, newVal, should, use.user, use.argNo);
        use.user.SetOperand(use.argNo, newVal, all);
        assert useList == Snap(all).uses[this];
      }
      assert useList == Snap(all).uses[this];
      WhereDone(s, Snap(all), this, newVal, should);
    }
  }

  lemma NothingReplaced(s: Snapshot, a: Value, b: Value?)
    ensures PartlyReplaced(s, s, a, b)
  {
  }

  /** Every slot is as in `s`, or held `a`, is one of those to change, and now holds `b`. */
  ghost predicate PartlyWhere(s: Snapshot, t: Snapshot, a: Value, b: Value?, should: Use -> bool) {
    && PartlyReplaced(s, t, a, b)
    && (forall u, i: nat :: u in s.ops && i < |s.ops[u]| && s.Holds(u, i, a) && !should(Use(u, i)) ==> t.Holds(u, i, a))
  }

  /** Exactly the slots that held `a` and satisfy `should` hold `b` instead. */
  ghost predicate ReplacedWhere(s: Snapshot, t: Snapshot, a: Value, b: Value?, should: Use -> bool) {
    && t.ops.Keys == s.ops.Keys
    && (forall u :: u in s.ops ==> |t.ops[u]| == |s.ops[u]|)
    && (forall u, i: nat :: u in s.ops && i < |s.ops[u]| && i < |t.ops[u]| ==>
          t.ops[u][i] == if s.ops[u][i] == a && should(Use(u, i)) then b else s.ops[u][i])
  }

  lemma WhereStart(s: Snapshot, a: Value, b: Value?, should: Use -> bool)
    ensures PartlyWhere(s, s, a, b, should)
  {
  }

  lemma WhereMore(s: Snapshot, t: Snapshot, a: Value, b: Value?, should: Use -> bool, u: Value, i: nat)
    requires t.Closed() && PartlyWhere(s, t, a, b, should) && (b != null ==> b in t.ops) && t.Holds(u, i, a) && should(Use(u, i)) && a != b
    ensures PartlyWhere(s, SetOp(t, u, i, b), a, b, should)
  {
    OneMoreReplaced(s, t, a, b, u, i);
  }

  lemma WhereDone(s: Snapshot, t: Snapshot, a: Value, b: Value?, should: Use -> bool)
    requires t.TwoWay() && PartlyWhere(s, t, a, b, should) && a in t.uses && a != b
    requires forall j :: 0 <= j < |t.uses[a]| ==> !should(t.uses[a][j])
    ensures ReplacedWhere(s, t, a, b, should)
  {
    forall u, i: nat | u in s.ops && i < |s.ops[u]|
      ensures t.ops[u][i] == if s.ops[u][i] == a && should(Use(u, i)) then b else s.ops[u][i]
    {
      if s.ops[u][i] == a {
        assert s.Holds(u, i, a);
        assert t.Times(a, u, i) == if t.Holds(u, i, a) then 1 else 0;
        CountMember(t.uses[a], Use(u, i));
      }
    }
  }

  lemma AddOpKeeps(s: Snapshot, u: Value, v: Value)
    requires s.TwoWay() && u in s.ops && v in s.ops
    ensures s.WithUse(v, Use(u, |s.ops[u]|)).WithOps(u, s.ops[u] + [v]).TwoWay()
  {
    hide Snapshot.Times;
    var t := s.WithUse(v, Use(u, |s.ops[u]|)).WithOps(u, s.ops[u] + [v]);
    forall w, y, j: nat | w in t.ops && y in t.ops
      ensures t.Times(w, y, j) == if t.Holds(y, j, w) then 1 else 0
    {
      TimesAdded(s, v, Use(u, |s.ops[u]|), w, y, j);
      SameTimes(s.WithUse(v, Use(u, |s.ops[u]|)), u, s.ops[u] + [v], w, y, j);
      assert s.Times(w, y, j) == if s.Holds(y, j, w) then 1 else 0;
    }
  }

  lemma SameTimes(s: Snapshot, u: Value, o: seq<Value?>, v: Value, y: Value, j: nat)
    ensures s.WithOps(u, o).Times(v, y, j) == s.Times(v, y, j)
  {
  }

  /** The first `k` slots of `u` are in no use list. */
  ghost function ClearTo(s: Snapshot, u: Value, k: nat): (t: Snapshot)
    requires s.Closed() && u in s.ops && k <= |s.ops[u]|
    ensures t.ops == s.ops && t.uses.Keys == s.uses.Keys
  {
    if k == 0 then s
    else if s.ops[u][k - 1] == null then ClearTo(s, u, k - 1)
    else ClearTo(s, u, k - 1).WithoutUse(s.ops[u][k - 1], Use(u, k - 1))
  }

  lemma ClearNone(s: Snapshot, u: Value)
    requires s.Closed() && u in s.ops
    ensures ClearTo(s, u, 0) == s
  {
  }

  lemma {:induction false} ClearTimes(s: Snapshot, u: Value, k: nat, v: Value, y: Value, j: nat)
    requires s.TwoWay() && u in s.ops && k <= |s.ops[u]| && v in s.ops && y in s.ops
    ensures ClearTo(s, u, k).Times(v, y, j) == if y == u && j < k then 0 else s.Times(v, y, j)
    decreases k
  {
    hide Snapshot.Times, Snapshot.Closed, Snapshot.WithoutUse;
    if k > 0 {
      IsClosed(s);
      ClearTimes(s, u, k - 1, v, y, j);
      var x := s.ops[u][k - 1];
      if x != null {
        TimesRemoved(ClearTo(s, u, k - 1), x, Use(u, k - 1), v, y, j);
      }
      assert s.Times(v, u, k - 1) == if s.Holds(u, k - 1, v) then 1 else 0;
    }
  }

  lemma {:induction false} ClearClosed(s: Snapshot, u: Value, k: nat)
    requires s.Closed() && u in s.ops && k <= |s.ops[u]|
    ensures ClearTo(s, u, k).Closed()
    decreases k
  {
    if k > 0 {
      ClearClosed(s, u, k - 1);
      var x := s.ops[u][k - 1];
      if x != null {
        UseClosed(ClearTo(s, u, k - 1), x, Use(u, k - 1), Use(u, k - 1));
      }
    }
  }

  lemma ClearKeeps(s: Snapshot, u: Value)
    requires s.TwoWay() && u in s.ops
    ensures ClearTo(s, u, |s.ops[u]|).WithOps(u, []).TwoWay()
  {
    hide Snapshot.Times;
    var c := ClearTo(s, u, |s.ops[u]|);
    var t := c.WithOps(u, []);
    ClearClosed(s, u, |s.ops[u]|);
    forall w, y, j: nat | w in t.ops && y in t.ops
      ensures t.Times(w, y, j) == if t.Holds(y, j, w) then 1 else 0
    {
      ClearTimes(s, u, |s.ops[u]|, w, y, j);
      SameTimes(c, u, [], w, y, j);
      assert s.Times(w, y, j) == if s.Holds(y, j, w) then 1 else 0;
    }
  }

  lemma OperandIn(s: Snapshot, u: Value, i: nat)
    requires s.Closed() && u in s.ops && i < |s.ops[u]|
    ensures s.ops[u][i] == null || s.ops[u][i] in s.ops
  {
  }

  ghost function Snap(all: set<Value>): Snapshot
    reads all
  {
    Snapshot(map v | v in all :: v.operands, map v | v in all :: v.useList)
  }

  lemma IsClosed(s: Snapshot)
    requires s.TwoWay()
    ensures s.Closed()
  {
  }
}
