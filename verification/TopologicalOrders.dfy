/** Ordering instructions so that each comes after the operands it shares the set with (Kahn's algorithm). */
module TopologicalOrders {
  import opened Basics
  import opened UseDef

  /** The number of operands in `s`, counted with repetition. */
  function CountIn(o: seq<Value?>, s: set<Value>): nat {
    if o == [] then 0
    else CountIn(o[..|o| - 1], s) + if o[|o| - 1] != null && o[|o| - 1] in s then 1 else 0
  }

  lemma {:induction false} CountInZero(o: seq<Value?>, s: set<Value>)
    ensures CountIn(o, s) == 0 <==> forall i :: 0 <= i < |o| && o[i] != null ==> o[i] !in s
    decreases |o|
  {
    if o != [] {
      var front := o[..|o| - 1];
      CountInZero(front, s);
      assert forall i :: 0 <= i < |front| ==> front[i] == o[i];
    }
  }

  /** The number of operands that are `x`. */
  function CountOf(o: seq<Value?>, x: Value): nat {
    if o == [] then 0 else CountOf(o[..|o| - 1], x) + if o[|o| - 1] == x then 1 else 0
  }

  lemma {:induction false} CountInWithout(o: seq<Value?>, s: set<Value>, x: Value)
    requires x in s
    ensures CountIn(o, s) == CountIn(o, s - {x}) + CountOf(o, x)
    decreases |o|
  {
    if o != [] {
      CountInWithout(o[..|o| - 1], s, x);
    }
  }

  /** The number of listed slots of `u`. */
  function CountUser(uses: seq<Use>, u: Value): nat {
    if uses == [] then 0 else CountUser(uses[..|uses| - 1], u) + if uses[|uses| - 1].user == u then 1 else 0
  }

  /** How often the slots 0, ..., n - 1 of `u` are listed. */
  function CountSlots(uses: seq<Use>, u: Value, n: nat): nat {
    if n == 0 then 0 else CountSlots(uses, u, n - 1) + Count(uses, Use(u, n - 1))
  }

  lemma {:induction false} CountSlotsSnoc(uses: seq<Use>, x: Use, u: Value, n: nat)
    ensures CountSlots(uses + [x], u, n) == CountSlots(uses, u, n) + if x.user == u && x.argNo < n then 1 else 0
    decreases n
  {
    if n > 0 {
      CountSlotsSnoc(uses, x, u, n - 1);
      CountSnoc(uses, x, Use(u, n - 1));
    }
  }

  lemma {:induction false} CountSlotsNone(u: Value, n: nat)
    ensures CountSlots([], u, n) == 0
  {
    if n > 0 {
      CountSlotsNone(u, n - 1);
    }
  }

  lemma {:induction false} UserBySlots(uses: seq<Use>, u: Value, n: nat)
    requires forall j :: 0 <= j < |uses| && uses[j].user == u ==> uses[j].argNo < n
    ensures CountUser(uses, u) == CountSlots(uses, u, n)
    decreases |uses|
  {
    if uses == [] {
      CountSlotsNone(u, n);
    } else {
      var front := uses[..|uses| - 1];
      UserBySlots(front, u, n);
      CountSlotsSnoc(front, uses[|uses| - 1], u, n);
      assert front + [uses[|uses| - 1]] == uses;
    }
  }

  /** A value is listed for a user as often as the user holds it. */
  lemma {:induction false} SlotsHold(s: Snapshot, x: Value, u: Value, n: nat)
    requires s.TwoWay() && x in s.ops && u in s.ops && n <= |s.ops[u]|
    ensures CountSlots(s.uses[x], u, n) == CountOf(s.ops[u][..n], x)
    decreases n
  {
    if n > 0 {
      SlotsHold(s, x, u, n - 1);
      assert s.ops[u][..n][..n - 1] == s.ops[u][..n - 1];
      assert s.Times(x, u, n - 1) == if s.Holds(u, n - 1, x) then 1 else 0;
    }
  }

  lemma ListedAsHeld(s: Snapshot, x: Value, u: Value)
    requires s.TwoWay() && x in s.ops && u in s.ops
    ensures CountUser(s.uses[x], u) == CountOf(s.ops[u], x)
  {
    forall j | 0 <= j < |s.uses[x]| && s.uses[x][j].user == u
      ensures s.uses[x][j].argNo < |s.ops[u]|
    {
      ListedHolds(s, x, j);
    }
    UserBySlots(s.uses[x], u, |s.ops[u]|);
    SlotsHold(s, x, u, |s.ops[u]|);
    assert s.ops[u][..|s.ops[u]|] == s.ops[u];
  }

  // ----- orders -----

  function ToSet(s: seq<Value>): (r: set<Value>)
    ensures (forall x :: x in r ==> x in s) && forall x :: x in s ==> x in r
  {
    set x | x in s
  }

  ghost predicate Distinct(s: seq<Value>) {
    forall i, j :: 0 <= i < j < |s| ==> s[i] != s[j]
  }

  /** Every operand of `u` that is in the set comes in `before`. */
  ghost predicate OperandsIn(ops: seq<Value?>, s: set<Value>, before: seq<Value>) {
    forall i :: 0 <= i < |ops| && ops[i] != null && ops[i] in s ==> ops[i] in before
  }

  /** All of `s`, each once, after its operands. */
  ghost predicate Ordered(t: Snapshot, s: set<Value>, order: seq<Value>) {
    && Distinct(order) && ToSet(order) == s
    && (forall k :: 0 <= k < |order| ==> order[k] in t.ops && OperandsIn(t.ops[order[k]], s, order[..k]))
  }

  /** Every member has an operand in the set again. */
  ghost predicate Cyclic(t: Snapshot, c: set<Value>) {
    c != {} && forall u :: u in c ==> u in t.ops && SomeIn(t.ops[u], c)
  }

  ghost predicate SomeIn(o: seq<Value?>, c: set<Value>) {
    exists i :: 0 <= i < |o| && o[i] != null && o[i] in c
  }

  /** A set with a cycle in it has no order. */
  lemma {:induction false} CyclicHasNoOrder(t: Snapshot, s: set<Value>, c: set<Value>, order: seq<Value>, k: nat)
    requires Ordered(t, s, order) && Cyclic(t, c) && c <= s && k <= |order|
    ensures forall i :: 0 <= i < k ==> order[i] !in c
    decreases k
  {
    hide Ordered, Cyclic, SomeIn;
    if k > 0 {
      CyclicHasNoOrder(t, s, c, order, k - 1);
      NotFirstOfCycle(t, s, c, order, k - 1);
    }
  }

  lemma NotFirstOfCycle(t: Snapshot, s: set<Value>, c: set<Value>, order: seq<Value>, k: nat)
    requires Ordered(t, s, order) && Cyclic(t, c) && c <= s && k < |order| && forall i :: 0 <= i < k ==> order[i] !in c
    ensures order[k] !in c
  {
    hide Distinct;
    var u := order[k];
    assert OperandsIn(t.ops[u], s, order[..k]);
  }

  lemma EachPlaced(s: set<Value>, order: seq<Value>, u: Value)
    requires ToSet(order) == s && u in s
    ensures exists i :: 0 <= i < |order| && order[i] == u
  {
    assert u in ToSet(order);
  }

  lemma NoOrderOfCyclic(t: Snapshot, s: set<Value>, c: set<Value>, order: seq<Value>)
    requires Cyclic(t, c) && c <= s
    ensures !Ordered(t, s, order)
  {
    hide Distinct, OperandsIn, SomeIn;
    var u :| u in c;
    if Ordered(t, s, order) {
      CyclicHasNoOrder(t, s, c, order, |order|);
      EachPlaced(s, order, u);
    }
  }

  // ----- the search for an order -----

  /** Between two rounds: each number counts the operands still to come, and the queue has those with none. */
  ghost predicate Counting(t: Snapshot, s: set<Value>, remaining: map<Value, nat>, queue: seq<Value>,
                           sorted: seq<Value>) {
    && remaining.Keys == s && s <= t.ops.Keys
    && Distinct(sorted + queue) && ToSet(sorted + queue) <= s
    && (forall u :: u in s ==> remaining[u] == CountIn(t.ops[u], s - ToSet(sorted)))
    && (forall u :: u in s ==> (remaining[u] == 0 <==> u in sorted + queue))
    && (forall k :: 0 <= k < |sorted| ==> OperandsIn(t.ops[sorted[k]], s, sorted[..k]))
  }

  /** While the users of `current` are released: `uses` are those still to come. */
  ghost predicate Releasing(t: Snapshot, s: set<Value>, remaining: map<Value, nat>, queue: seq<Value>,
                            sorted: seq<Value>,
                            uses: seq<Use>) {
    && remaining.Keys == s && s <= t.ops.Keys
    && Distinct(sorted + queue) && ToSet(sorted + queue) <= s
    && (forall u :: u in s ==> remaining[u] == CountIn(t.ops[u], s - ToSet(sorted)) + CountUser(uses, u))
    && (forall u :: u in s ==> (remaining[u] == 0 <==> u in sorted + queue))
    && (forall k :: 0 <= k < |sorted| ==> OperandsIn(t.ops[sorted[k]], s, sorted[..k]))
  }

  /** Taking `current` from the queue: its operands in the set have all come before. */
  lemma TakeNext(t: Snapshot, s: set<Value>, remaining: map<Value, nat>, queue: seq<Value>, sorted: seq<Value>)
    requires Counting(t, s, remaining, queue, sorted) && queue != [] && t.TwoWay()
    ensures queue[0] in t.uses && Releasing(t, s, remaining, queue[1..], sorted + [queue[0]], t.uses[queue[0]])
  {
    hide Snapshot.TwoWay, CountIn, CountUser, OperandsIn, Distinct;
    var current, sorted' := queue[0], sorted + [queue[0]];
    assert sorted' + queue[1..] == sorted + queue;
    TwoWayUses(t, current);
    FirstWaiting(t, s, queue, sorted);
    assert current in sorted + queue;
    forall u | u in s
      ensures remaining[u] == CountIn(t.ops[u], s - ToSet(sorted')) + CountUser(t.uses[current], u)
    {
      assert s - ToSet(sorted') == s - ToSet(sorted) - {current};
      CountInWithout(t.ops[u], s - ToSet(sorted), current);
      ListedAsHeld(t, current, u);
    }
    CountInZero(t.ops[current], s - ToSet(sorted));
    AllBefore(t.ops[current], s, sorted);
    forall k | 0 <= k < |sorted'|
      ensures OperandsIn(t.ops[sorted'[k]], s, sorted'[..k])
    {
      assert sorted'[..k] == sorted[..k];
    }
  }

  lemma TwoWayUses(t: Snapshot, x: Value)
    requires t.TwoWay() && x in t.ops
    ensures x in t.uses
  {
  }

  lemma FirstWaiting(t: Snapshot, s: set<Value>, queue: seq<Value>, sorted: seq<Value>)
    requires Distinct(sorted + queue) && ToSet(sorted + queue) <= s && queue != []
    ensures queue[0] in s && queue[0] !in sorted
  {
    var all := sorted + queue;
    assert all[|sorted|] == queue[0] && all[|sorted|] in all;
    forall i | 0 <= i < |sorted|
      ensures sorted[i] != queue[0]
    {
      assert all[i] == sorted[i];
    }
  }

  lemma AllBefore(o: seq<Value?>, s: set<Value>, sorted: seq<Value>)
    requires forall i :: 0 <= i < |o| && o[i] != null ==> o[i] !in s - ToSet(sorted)
    ensures OperandsIn(o, s, sorted)
  {
  }

  lemma TakeUse(uses: seq<Use>, k: nat, u: Value)
    requires k < |uses|
    ensures CountUser(uses[k..], u) == CountUser(uses[k + 1..], u) + if uses[k].user == u then 1 else 0
  {
    FrontUser(uses[k..], u);
    assert uses[k..][1..] == uses[k + 1..];
  }

  lemma {:induction false} FrontUser(uses: seq<Use>, u: Value)
    requires uses != []
    ensures CountUser(uses, u) == CountUser(uses[1..], u) + if uses[0].user == u then 1 else 0
    decreases |uses|
  {
    if |uses| > 1 {
      FrontUser(uses[..|uses| - 1], u);
      assert uses[1..][..|uses| - 2] == uses[..|uses| - 1][1..];
    }
  }

  /** A use outside the set is passed over. */
  lemma SkipUse(t: Snapshot, s: set<Value>, remaining: map<Value, nat>, queue: seq<Value>, sorted: seq<Value>,
                uses: seq<Use>, k: nat)
    requires k < |uses| && Releasing(t, s, remaining, queue, sorted, uses[k..]) && uses[k].user !in remaining
    ensures Releasing(t, s, remaining, queue, sorted, uses[k + 1..])
  {
    hide CountIn, CountUser, OperandsIn, Distinct;
    forall u | u in s
      ensures CountUser(uses[k..], u) == CountUser(uses[k + 1..], u)
    {
      TakeUse(uses, k, u);
    }
  }

  /** A use in the set is released; its user joins the queue when it was the last. */
  lemma ReleaseUse(t: Snapshot, s: set<Value>, remaining: map<Value, nat>, queue: seq<Value>, sorted: seq<Value>,
                   uses: seq<Use>, k: nat)
    requires k < |uses| && Releasing(t, s, remaining, queue, sorted, uses[k..]) && uses[k].user in remaining
    ensures var u := uses[k].user;
            && remaining[u] > 0
            && Releasing(t, s, remaining[u := remaining[u] - 1], if remaining[u] == 1 then queue + [u] else queue, sorted,
                         uses[k + 1..])
  {
    hide CountIn, CountUser, OperandsIn, Distinct;
    var u := uses[k].user;
    TakeUse(uses, k, u);
    var remaining' := remaining[u := remaining[u] - 1];
    var queue' := if remaining[u] == 1 then queue + [u] else queue;
    forall w | w in s
      ensures remaining'[w] == CountIn(t.ops[w], s - ToSet(sorted)) + CountUser(uses[k + 1..], w)
    {
      TakeUse(uses, k, w);
    }
    if remaining[u] == 1 {
      assert sorted + queue' == sorted + queue + [u];
      StillDistinct(sorted + queue, u);
    }
  }

  lemma StillDistinct(s: seq<Value>, u: Value)
    requires Distinct(s) && u !in s
    ensures Distinct(s + [u])
  {
  }

  lemma UsersReleased(t: Snapshot, s: set<Value>, remaining: map<Value, nat>, queue: seq<Value>, sorted: seq<Value>)
    requires Releasing(t, s, remaining, queue, sorted, [])
    ensures Counting(t, s, remaining, queue, sorted)
  {
    hide CountIn, OperandsIn, Distinct;
  }

  lemma {:induction false} DistinctSize(s: seq<Value>)
    requires Distinct(s)
    ensures |ToSet(s)| == |s|
    decreases |s|
  {
    if s != [] {
      DistinctSize(s[..|s| - 1]);
      assert ToSet(s) == ToSet(s[..|s| - 1]) + {s[|s| - 1]};
    }
  }

  lemma CountPositive(o: seq<Value?>, c: set<Value>)
    ensures CountIn(o, c) > 0 ==> SomeIn(o, c)
  {
    CountInZero(o, c);
  }

  /** When the queue has run empty: either everything is sorted, or the rest goes round in circles. */
  lemma SearchEnds(t: Snapshot, s: set<Value>, remaining: map<Value, nat>, sorted: seq<Value>)
    requires Counting(t, s, remaining, [], sorted)
    ensures |sorted| == |s| ==> Ordered(t, s, sorted)
    ensures |sorted| != |s| ==> Cyclic(t, s - ToSet(sorted))
    ensures |sorted| <= |s|
  {
    hide OperandsIn, CountIn, Distinct, SomeIn;
    assert sorted + [] == sorted;
    DistinctSize(sorted);
    var c := s - ToSet(sorted);
    assert s == ToSet(sorted) + c;
    assert |s| == |sorted| + |c|;
    forall u | u in c
      ensures u in t.ops && SomeIn(t.ops[u], c)
    {
      CountPositive(t.ops[u], c);
    }
    if |sorted| == |s| {
      assert c == {};
    }
  }

  /** Counts the operands of `o` that are in the set. */
  method CountDeps(o: seq<Value?>, s: set<Value>) returns (n: nat)
    ensures n == CountIn(o, s)
  {
    n := 0;
    for i := 0 to |o|
      invariant n == CountIn(o[..i], s)
    {
      assert o[..i + 1][..i] == o[..i];
      if o[i] == null || o[i] !in s {
        continue;
      }
      n := n + 1;
    }
    assert o[..|o|] == o;
  }

  /** Orders the instructions so that each comes after its operands among them, or finds that they go in circles. */
  method ComputeTopologicalOrder(instructions: seq<Value>, ghost all: set<Value>) returns (order: Option<seq<Value>>)
    requires Snap(all).TwoWay() && Distinct(instructions) && ToSet(instructions) <= all
    ensures order.Some? ==> Ordered(Snap(all), ToSet(instructions), order.value)
    ensures order.None? ==> exists c :: c <= ToSet(instructions) && Cyclic(Snap(all), c)
  {
    hide Counting, Releasing, Ordered, Cyclic, CountIn, CountUser, Snapshot.TwoWay, Distinct;
    ghost var t := Snap(all);
    var s := ToSet(instructions);
    var remainingDeps: map<Value, nat> := map[];
    for i := 0 to |instructions|
      invariant remainingDeps.Keys == ToSet(instructions[..i])
      invariant forall u :: u in remainingDeps ==> u in t.ops && remainingDeps[u] == CountIn(t.ops[u], s)
    {
      assert instructions[..i + 1] == instructions[..i] + [instructions[i]];
      var n := CountDeps(instructions[i].operands, s);
      remainingDeps := remainingDeps[instructions[i] := n];
    }
    assert instructions[..|instructions|] == instructions;
    var worklist: seq<Value> := [];
    StartEmpty();
    for i := 0 to |instructions|
      invariant forall u :: u in worklist <==> u in instructions[..i] && u in remainingDeps && remainingDeps[u] == 0
      invariant Distinct(worklist)
    {
      NotInFront(instructions, i);
      assert instructions[..i + 1] == instructions[..i] + [instructions[i]];
      if remainingDeps[instructions[i]] == 0 {
        StillDistinct(worklist, instructions[i]);
        worklist := worklist + [instructions[i]];
      }
    }
    var sortedOrder: seq<Value> := [];
    StartCounting(t, s, remainingDeps, worklist);
    while worklist != []
      invariant Counting(t, s, remainingDeps, worklist, sortedOrder)
      decreases |s| - |sortedOrder|
    {
      var current := worklist[0];
      TakeNext(t, s, remainingDeps, worklist, sortedOrder);
      worklist := worklist[1..];
      sortedOrder := sortedOrder + [current];
      assert current.useList == t.uses[current];
      assert current.useList[0..] == current.useList;
      for k := 0 to |current.useList|
        invariant Releasing(t, s, remainingDeps, worklist, sortedOrder, current.useList[k..])
      {
        var user := current.useList[k].user;
        if user !in remainingDeps {
          SkipUse(t, s, remainingDeps, worklist, sortedOrder, current.useList, k);
          continue;
        }
        ReleaseUse(t, s, remainingDeps, worklist, sortedOrder, current.useList, k);
        remainingDeps := remainingDeps[user := remainingDeps[user] - 1];
        if remainingDeps[user] == 0 {
          worklist := worklist + [user];
        }
      }
      assert current.useList[|current.useList|..] == [];
      UsersReleased(t, s, remainingDeps, worklist, sortedOrder);
      NotTooMany(t, s, remainingDeps, worklist, sortedOrder);
    }
    SearchEnds(t, s, remainingDeps, sortedOrder);
    DistinctSize(instructions);
    if |sortedOrder| == |instructions| {
      return Some(sortedOrder);
    }
    assert s - ToSet(sortedOrder) <= s && Cyclic(t, s - ToSet(sortedOrder));
    return None;
  }

  lemma StartEmpty()
    ensures Distinct([])
  {
  }

  lemma NotInFront(s: seq<Value>, i: nat)
    requires Distinct(s) && i < |s|
    ensures s[i] !in s[..i]
  {
  }

  lemma StartCounting(t: Snapshot, s: set<Value>, remaining: map<Value, nat>, queue: seq<Value>)
    requires remaining.Keys == s && (forall u :: u in remaining ==> u in t.ops && remaining[u] == CountIn(t.ops[u], s))
    requires Distinct(queue) && forall u :: u in queue <==> u in remaining && remaining[u] == 0
    ensures Counting(t, s, remaining, queue, [])
  {
    hide CountIn, Distinct;
    assert [] + queue == queue;
    assert s - ToSet([]) == s;
  }

  lemma NotTooMany(t: Snapshot, s: set<Value>, remaining: map<Value, nat>, queue: seq<Value>, sorted: seq<Value>)
    requires Counting(t, s, remaining, queue, sorted)
    ensures |sorted| <= |s|
  {
    DistinctSize(sorted + queue);
    SubsetSize(ToSet(sorted + queue), s);
  }
}
