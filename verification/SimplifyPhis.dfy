/** Removing phis whose incoming values are, apart from the phi itself, all the same. */
module SimplifyPhis {
  import opened Graphs
  import opened UseDef
  import opened HeapCode
  import opened SimplifyRuns

  /** The incoming values of a phi stand at the even operands. */
  ghost predicate ComesIn(o: seq<Value?>, x: Value?) {
    exists i: nat :: i < |o| && i % 2 == 0 && o[i] == x
  }

  /** Apart from the phi itself, `x` is the only value that comes in. */
  ghost predicate Only(o: seq<Value?>, phi: Value, x: Value?) {
    x != phi && ComesIn(o, x) && forall i: nat :: i < |o| && i % 2 == 0 ==> o[i] == phi || o[i] == x
  }

  /** No incoming value, or more than one, apart from the phi itself. */
  ghost predicate NotSimple(o: seq<Value?>, phi: Value) {
    forall i: nat :: i < |o| ==> !Only(o, phi, o[i])
  }

  /** The incoming operands are set. */
  ghost predicate IncomingSet(o: seq<Value?>) {
    |o| % 2 == 0 && forall i: nat :: i < |o| && i % 2 == 0 ==> o[i] != null
  }

  /** `phis` are phis of one function: no other phi uses them. */
  ghost predicate PhisWellFormed(s: Snapshot, phis: seq<Value>) {
    && (forall p :: p in phis ==> p in s.ops && p.isPhi && IncomingSet(s.ops[p]))
    && (forall u, i {:trigger s.ops[u][i]} :: u in s.ops && u.isPhi && 0 <= i < |s.ops[u]| && s.ops[u][i] in phis ==>
          u in phis)
  }

  method FindReplacement(phi: Value) returns (replacement: Value?)
    requires IncomingSet(phi.operands)
    ensures replacement != null ==> Only(phi.operands, phi, replacement)
    ensures replacement == null ==> NotSimple(phi.operands, phi)
  {
    replacement := null;
    var i := 0;
    while i < |phi.operands|
      invariant i % 2 == 0 && i <= |phi.operands|
      invariant replacement == null ==> forall j: nat :: j < i && j % 2 == 0 ==> phi.operands[j] == phi
      invariant replacement != null ==> Only(phi.operands[..i], phi, replacement)
    {
      var incoming := phi.operands[i];
      assert forall j: nat :: j < i ==> phi.operands[..i + 2][j] == phi.operands[..i][j] == phi.operands[j];
      assert phi.operands[..i + 2][i] == incoming;
      if incoming != phi {
        if replacement == null {
          replacement := incoming;
        } else if incoming != replacement {
          TwoComeIn(phi.operands, phi, i, replacement);
          return null;
        } else {
          StillOnly(phi.operands, phi, replacement, i);
        }
      } else if replacement != null {
        StillOnly(phi.operands, phi, replacement, i);
      }
      i := i + 2;
    }
    assert phi.operands[..i] == phi.operands;
  }

  lemma StillOnly(o: seq<Value?>, phi: Value, x: Value, i: nat)
    requires i + 1 < |o| && i % 2 == 0 && Only(o[..i], phi, x) && (o[i] == phi || o[i] == x)
    ensures Only(o[..i + 2], phi, x)
  {
    var j: nat :| j < |o[..i]| && j % 2 == 0 && o[..i][j] == x;
    assert o[..i + 2][j] == x;
    forall k: nat | k < |o[..i + 2]| && k % 2 == 0
      ensures o[..i + 2][k] == phi || o[..i + 2][k] == x
    {
      if k < i {
        assert o[..i + 2][k] == o[..i][k];
      }
    }
  }

  lemma TwoComeIn(o: seq<Value?>, phi: Value, i: nat, x: Value)
    requires i < |o| && i % 2 == 0 && o[i] != phi && o[i] != x && Only(o[..i], phi, x)
    ensures NotSimple(o, phi)
  {
    var j: nat :| j < |o[..i]| && j % 2 == 0 && o[..i][j] == x;
    assert o[j] == x;
  }

  // ----- the worklist -----

  /** Each phi that is neither erased nor waiting has no single value coming in; nothing uses an erased phi. */
  ghost predicate Settled(s: Snapshot, phis: seq<Value>, worklist: seq<Value>, erased: set<Value>) {
    && s.TwoWay() && PhisWellFormed(s, phis)
    && (forall p :: p in phis && p !in erased && p !in worklist ==> p in s.ops && NotSimple(s.ops[p], p))
    && (forall p :: p in worklist ==> p in phis && p in s.ops)
    && (forall e :: e in erased ==> e in phis && e in s.uses && s.uses[e] == [])
  }

  /** A waiting phi that turns out not to be simple. */
  lemma DropOne(s: Snapshot, phis: seq<Value>, worklist: seq<Value>, erased: set<Value>)
    requires worklist != [] && Settled(s, phis, worklist, erased)
    requires worklist[0] in erased || NotSimple(s.ops[worklist[0]], worklist[0])
    ensures Settled(s, phis, worklist[1..], erased)
  {
    hide NotSimple, Snapshot.TwoWay, PhisWellFormed;
    assert worklist == [worklist[0]] + worklist[1..];
  }

  /** The value that comes in is used, by the phi, so it has not been erased. */
  lemma SourceNotErased(s: Snapshot, phis: seq<Value>, worklist: seq<Value>, erased: set<Value>, phi: Value, x: Value)
    requires Settled(s, phis, worklist, erased) && phi in s.ops && x in s.ops[phi]
    ensures x !in erased && x in s.ops
  {
    hide NotSimple, PhisWellFormed;
    var i :| 0 <= i < |s.ops[phi]| && s.ops[phi][i] == x;
    assert s.ops[phi][i] in s.ops;
    assert s.Times(x, phi, i) == if s.Holds(phi, i, x) then 1 else 0;
  }

  /** What replacing the uses of `phi` by `x` leaves: its users among the phis have to be looked at again. */
  lemma ReplaceOne(s: Snapshot, t: Snapshot, phis: seq<Value>, worklist: seq<Value>, users: seq<Value>,
                   erased: set<Value>, phi: Value, x: Value)
    requires worklist != [] && worklist[0] == phi && Settled(s, phis, worklist, erased) && phi in s.ops && x in s.ops
    requires x != phi
    requires t.TwoWay() && t.ops == map u | u in s.ops :: ReplaceIn(s.ops[u], phi, x)
    requires phi in t.uses && t.uses[phi] == [] && x !in erased
    requires forall u :: u in users <==> u.isPhi && exists j :: 0 <= j < |s.uses[phi]| && s.uses[phi][j].user == u
    ensures Settled(t, phis, worklist[1..] + users, erased + {phi})
  {
    hide Snapshot.TwoWay, NotSimple, PhisWellFormed, ReplaceIn;
    ReplacedShape(s, t, phis, phi, x);
    forall p | p in phis && p !in erased + {phi} && p !in worklist[1..] + users
      ensures p in t.ops && NotSimple(t.ops[p], p)
    {
      assert worklist == [worklist[0]] + worklist[1..];
      SettledMeans(s, phis, worklist, erased, p);
      PhiFacts(s, phis, p);
      NotAUser(s, phi, users, p, x);
    }
    forall p | p in worklist[1..] + users
      ensures p in phis && p in t.ops
    {
      if p in users {
        UsersListed(s, phis, phi, users, p);
      }
    }
    forall e | e in erased
      ensures e in t.uses && t.uses[e] == []
    {
      ErasedStay(s, t, phis, worklist, erased, phi, x, e);
    }
  }

  lemma PhiFacts(s: Snapshot, phis: seq<Value>, p: Value)
    requires PhisWellFormed(s, phis) && p in phis
    ensures p in s.ops && p.isPhi && IncomingSet(s.ops[p])
  {
  }

  lemma SettledMeans(s: Snapshot, phis: seq<Value>, worklist: seq<Value>, erased: set<Value>, p: Value)
    requires Settled(s, phis, worklist, erased) && p in phis && p !in erased && p !in worklist
    ensures p in s.ops && NotSimple(s.ops[p], p)
  {
    hide NotSimple, PhisWellFormed, Snapshot.TwoWay;
  }

  lemma ReplacedShape(s: Snapshot, t: Snapshot, phis: seq<Value>, phi: Value, x: Value)
    requires PhisWellFormed(s, phis) && phi in phis && t.ops == map u | u in s.ops :: ReplaceIn(s.ops[u], phi, x)
    ensures PhisWellFormed(t, phis)
  {
    forall p | p in phis
      ensures IncomingSet(t.ops[p])
    {
      assert IncomingSet(s.ops[p]);
      forall i: nat | i < |t.ops[p]| && i % 2 == 0
        ensures t.ops[p][i] != null
      {
        assert s.ops[p][i] != null;
      }
    }
    forall u, i {:trigger t.ops[u][i]} | u in t.ops && u.isPhi && 0 <= i < |t.ops[u]| && t.ops[u][i] in phis
      ensures u in phis
    {
      assert s.ops[u][i] in phis;
    }
  }

  /** A phi that does not use `phi` keeps its operands. */
  lemma NotAUser(s: Snapshot, phi: Value, users: seq<Value>, p: Value, x: Value)
    requires s.TwoWay() && phi in s.ops && p in s.ops && p.isPhi && p !in users
    requires forall u :: u in users <==> u.isPhi && exists j :: 0 <= j < |s.uses[phi]| && s.uses[phi][j].user == u
    ensures ReplaceIn(s.ops[p], phi, x) == s.ops[p]
  {
    forall i: nat | i < |s.ops[p]|
      ensures s.ops[p][i] != phi
    {
      assert s.Times(phi, p, i) == if s.Holds(p, i, phi) then 1 else 0;
      CountMember(s.uses[phi], Use(p, i));
    }
  }

  lemma UsersListed(s: Snapshot, phis: seq<Value>, phi: Value, users: seq<Value>, p: Value)
    requires s.TwoWay() && PhisWellFormed(s, phis) && phi in phis && phi in s.ops && p in users
    requires forall u :: u in users <==> u.isPhi && exists j :: 0 <= j < |s.uses[phi]| && s.uses[phi][j].user == u
    ensures p in phis && p in s.ops
  {
    var j :| 0 <= j < |s.uses[phi]| && s.uses[phi][j].user == p;
    ListedHolds(s, phi, j);
  }

  lemma ErasedStay(s: Snapshot, t: Snapshot, phis: seq<Value>, worklist: seq<Value>, erased: set<Value>,
                   phi: Value, x: Value, e: Value)
    requires Settled(s, phis, worklist, erased) && t.TwoWay()
    requires t.ops == map u | u in s.ops :: ReplaceIn(s.ops[u], phi, x)
    requires e in erased && e != x
    ensures e in t.uses && t.uses[e] == []
  {
    hide NotSimple, PhisWellFormed;
    assert e in t.ops;
    if t.uses[e] != [] {
      ListedHolds(t, e, 0);
      var u, i := t.uses[e][0].user, t.uses[e][0].argNo;
      assert t.ops[u] == ReplaceIn(s.ops[u], phi, x);
      NoSlot(s, e, u, i);
    }
  }

  lemma NoSlot(s: Snapshot, e: Value, u: Value, i: nat)
    requires s.TwoWay() && e in s.uses && s.uses[e] == [] && u in s.ops
    ensures !s.Holds(u, i, e)
  {
    assert s.Times(e, u, i) == 0;
  }

  // ----- the pass over one function -----

  /** Removes phis until none is left whose incoming values are, apart from itself, all the same. `phis` are the
      phis of the function in block order; `all` also has the values of other functions that share constants and
      globals with it. Read as code in SSA form over the blocks `blocks`, every run stays as it was. */
  method SimplifyFunction(phis: seq<Value>, ghost all: set<Value>, ghost g: Cfg, ghost nm: Naming,
                          ghost blocks: seq<seq<Value>>) returns (erased: set<Value>)
    requires Snap(all).TwoWay() && PhisWellFormed(Snap(all), phis)
    modifies all`operands, all`useList
    ensures Snap(all).TwoWay()
    ensures forall e :: e in erased ==> e in all && e in phis && e.operands == [] && e.useList == []
    ensures forall p :: p in phis && p !in erased ==> NotSimple(p.operands, p)
    ensures forall u, i :: u in all && 0 <= i < |u.operands| ==> u.operands[i] !in erased
    ensures var s := old(Snap(all)); Describes(g, nm, blocks, phis, s) ==>
              SameRuns(g, BodyFor(nm, s.ops, blocks), BodyFor(nm, Snap(all).ops, FilteredBlocks(blocks, erased)))
  {
    hide Settled, NotSimple, PhisWellFormed, Snapshot.TwoWay, Snapshot.Closed, IncomingSet, Only, Faithful, Describes,
         SameRuns, BodyFor, FilteredBlocks, ReplaceIn;
    var worklist := phis;
    erased := {};
    ghost var s0 := Snap(all);
    FaithfulStart(g, nm, blocks, phis, s0);
    SettledStart(Snap(all), phis);
    while worklist != []
      invariant Settled(Snap(all), phis, worklist, erased) && erased <= all
      invariant Faithful(g, nm, blocks, phis, s0, Snap(all))
      decreases all - erased, |worklist|
    {
      ghost var s := Snap(all);
      var curPhi := worklist[0];
      if curPhi in erased {
        DropOne(s, phis, worklist, erased);
        worklist := worklist[1..];
        continue;
      }
      SettledFacts(s, phis, worklist, erased, curPhi);
      var replacement := FindReplacement(curPhi);
      if replacement != null && replacement != curPhi {
        OnlyIn(curPhi.operands, curPhi, replacement);
        SourceNotErased(s, phis, worklist, erased, curPhi, replacement);
        var users := PhiUsers(curPhi.useList);
        curPhi.ReplaceAllUseWith(replacement, all);
        assert curPhi.useList == Snap(all).uses[curPhi];
        ReplaceOne(s, Snap(all), phis, worklist, users, erased, curPhi, replacement);
        FaithfulStep(g, nm, blocks, phis, s0, s, Snap(all), curPhi, replacement);
        worklist := worklist[1..] + users;
        erased := erased + {curPhi};
      } else {
        NeverItself(curPhi.operands, curPhi, replacement);
        DropOne(s, phis, worklist, erased);
        worklist := worklist[1..];
      }
    }
    ghost var s1 := Snap(all);
    Erase(phis, erased, all);
    FaithfulEnd(g, nm, blocks, phis, s0, s1, Snap(all), erased);
  }

  /** So far, replacing has kept the code in SSA form and its runs as they were. */
  ghost predicate Faithful(g: Cfg, nm: Naming, blocks: seq<seq<Value>>, phis: seq<Value>, s0: Snapshot, s: Snapshot) {
    Describes(g, nm, blocks, phis, s0) ==>
      Describes(g, nm, blocks, phis, s) && SameRuns(g, BodyFor(nm, s0.ops, blocks), BodyFor(nm, s.ops, blocks))
  }

  lemma FaithfulStart(g: Cfg, nm: Naming, blocks: seq<seq<Value>>, phis: seq<Value>, s0: Snapshot)
    ensures Faithful(g, nm, blocks, phis, s0, s0)
  {
    hide SameRuns, Describes;
    if Describes(g, nm, blocks, phis, s0) {
      DescribedSize(g, nm, blocks, phis, s0);
      SameRunsSelf(g, BodyFor(nm, s0.ops, blocks));
    }
  }

  lemma FaithfulStep(g: Cfg, nm: Naming, blocks: seq<seq<Value>>, phis: seq<Value>, s0: Snapshot, s: Snapshot,
                     t: Snapshot, phi: Value, x: Value)
    requires Faithful(g, nm, blocks, phis, s0, s) && s.TwoWay() && phi in phis && phi in s.ops && x in s.ops
    requires IncomingSet(s.ops[phi]) && Only(s.ops[phi], phi, x)
    requires t.ops == map u | u in s.ops :: ReplaceIn(s.ops[u], phi, x)
    ensures Faithful(g, nm, blocks, phis, s0, t)
  {
    hide Describes, SameRuns, BodyFor, Snapshot.Closed;
    if Describes(g, nm, blocks, phis, s0) {
      OneReplaced(g, nm, blocks, phis, s, t, phi, x);
      SameRunsTrans(g, BodyFor(nm, s0.ops, blocks), BodyFor(nm, s.ops, blocks), BodyFor(nm, t.ops, blocks));
    }
  }

  lemma FaithfulEnd(g: Cfg, nm: Naming, blocks: seq<seq<Value>>, phis: seq<Value>, s0: Snapshot, s: Snapshot,
                    t: Snapshot, erased: set<Value>)
    requires Faithful(g, nm, blocks, phis, s0, s) && Settled(s, phis, [], erased)
    requires t.ops.Keys == s.ops.Keys && forall u :: u in s.ops && u !in erased ==> t.ops[u] == s.ops[u]
    ensures Describes(g, nm, blocks, phis, s0) ==>
              SameRuns(g, BodyFor(nm, s0.ops, blocks), BodyFor(nm, t.ops, FilteredBlocks(blocks, erased)))
  {
    hide Describes, SameRuns, BodyFor, FilteredBlocks, NotSimple, PhisWellFormed;
    if Describes(g, nm, blocks, phis, s0) {
      forall u, i {:trigger s.ops[u][i]} | u in s.ops && 0 <= i < |s.ops[u]|
        ensures s.ops[u][i] !in erased
      {
        if s.ops[u][i] in erased {
          NoSlot(s, s.ops[u][i], u, i);
        }
      }
      RemovedSame(g, nm, blocks, phis, s, t, erased);
      SameRunsTrans(g, BodyFor(nm, s0.ops, blocks), BodyFor(nm, s.ops, blocks),
                    BodyFor(nm, t.ops, FilteredBlocks(blocks, erased)));
    }
  }

  /** The phis among the users, in the order of the use list. */
  method PhiUsers(uses: seq<Use>) returns (users: seq<Value>)
    ensures forall u :: u in users <==> u.isPhi && exists j :: 0 <= j < |uses| && uses[j].user == u
  {
    users := [];
    for i := 0 to |uses|
      invariant forall u :: u in users <==> u.isPhi && exists j :: 0 <= j < i && uses[j].user == u
    {
      if uses[i].user.isPhi {
        users := users + [uses[i].user];
      }
    }
  }

  /** Takes the erased phis out of their blocks; a phi that goes lets go of its operands. */
  method Erase(phis: seq<Value>, erased: set<Value>, ghost all: set<Value>)
    requires erased <= all && Settled(Snap(all), phis, [], erased)
    modifies all`operands, all`useList
    ensures Snap(all).TwoWay()
    ensures forall e :: e in erased ==> e in all && e in phis && e.operands == [] && e.useList == []
    ensures forall p :: p in phis && p !in erased ==> NotSimple(p.operands, p)
    ensures forall u, i :: u in all && 0 <= i < |u.operands| ==> u.operands[i] !in erased
    ensures forall u :: u in all && u !in erased ==> u.operands == old(u.operands)
  {
    hide Settled, NotSimple, PhisWellFormed, Snapshot.TwoWay, Snapshot.Closed;
    ghost var s := Snap(all);
    var rest := erased;
    ErasingStart(s, phis, erased);
    while rest != {}
      invariant rest <= erased && Erasing(s, Snap(all), phis, erased, rest)
      decreases rest
    {
      var phi :| phi in rest;
      ghost var t := Snap(all);
      ErasingTwoWay(s, t, phis, erased, rest);
      phi.RemoveAllOperands(all);
      ErasingMore(s, t, Snap(all), phis, erased, rest, phi);
      rest := rest - {phi};
    }
    ErasingTwoWay(s, Snap(all), phis, erased, {});
    forall u | u in all && u !in erased
      ensures u.operands == old(u.operands)
    {
      OthersKept(s, Snap(all), phis, erased, u);
      assert u.operands == Snap(all).ops[u] && old(u.operands) == s.ops[u];
    }
    forall e | e in erased
      ensures e in all && e in phis && e.operands == [] && e.useList == []
    {
      ErasedGone(s, Snap(all), phis, erased, e);
      assert e.useList == Snap(all).uses[e] && e.operands == Snap(all).ops[e];
    }
    forall p | p in phis && p !in erased
      ensures NotSimple(p.operands, p)
    {
      SurvivorKept(s, Snap(all), phis, erased, p);
      assert p.operands == Snap(all).ops[p];
    }
    forall u, i | u in all && 0 <= i < |u.operands|
      ensures u.operands[i] !in erased
    {
      if u.operands[i] in erased {
        ErasedGone(s, Snap(all), phis, erased, u.operands[i]);
        NobodyUses(Snap(all), u, i);
      }
    }
  }

  lemma SettledStart(s: Snapshot, phis: seq<Value>)
    requires s.TwoWay() && PhisWellFormed(s, phis)
    ensures Settled(s, phis, phis, {})
  {
    hide Snapshot.TwoWay, IncomingSet;
  }

  lemma SettledFacts(s: Snapshot, phis: seq<Value>, worklist: seq<Value>, erased: set<Value>, phi: Value)
    requires Settled(s, phis, worklist, erased) && phi in worklist
    ensures s.TwoWay() && phi in phis && phi in s.ops && phi.isPhi && IncomingSet(s.ops[phi])
  {
    hide Snapshot.TwoWay, NotSimple, IncomingSet;
  }

  lemma OnlyIn(o: seq<Value?>, phi: Value, x: Value)
    requires Only(o, phi, x)
    ensures x in o
  {
  }

  lemma NeverItself(o: seq<Value?>, phi: Value, x: Value?)
    requires x == null || x == phi
    requires (x != null ==> Only(o, phi, x)) && (x == null ==> NotSimple(o, phi))
    ensures NotSimple(o, phi)
  {
  }

  /** Those of `erased` that are no longer in `rest` have no operands; all else is as before. */
  ghost predicate Erasing(s: Snapshot, t: Snapshot, phis: seq<Value>, erased: set<Value>, rest: set<Value>) {
    && t.TwoWay() && t.ops.Keys == s.ops.Keys && Settled(s, phis, [], erased)
    && (forall u :: u in s.ops ==> t.ops[u] == if u in erased && u !in rest then [] else s.ops[u])
  }

  lemma ErasingStart(s: Snapshot, phis: seq<Value>, erased: set<Value>)
    requires Settled(s, phis, [], erased)
    ensures Erasing(s, s, phis, erased, erased)
  {
    hide NotSimple, PhisWellFormed;
  }

  lemma ErasingTwoWay(s: Snapshot, t: Snapshot, phis: seq<Value>, erased: set<Value>, rest: set<Value>)
    requires Erasing(s, t, phis, erased, rest)
    ensures t.TwoWay()
  {
    hide Settled, Snapshot.TwoWay;
  }

  lemma ErasingMore(s: Snapshot, t: Snapshot, t': Snapshot, phis: seq<Value>, erased: set<Value>, rest: set<Value>,
                    phi: Value)
    requires Erasing(s, t, phis, erased, rest) && phi in rest && phi in s.ops && rest <= erased
    requires t'.TwoWay() && t'.ops == t.ops[phi := []]
    ensures Erasing(s, t', phis, erased, rest - {phi})
  {
    hide Settled, Snapshot.TwoWay;
  }

  lemma ErasedGone(s: Snapshot, t: Snapshot, phis: seq<Value>, erased: set<Value>, e: Value)
    requires Erasing(s, t, phis, erased, {}) && e in erased
    ensures e in t.ops && e in phis && t.ops[e] == [] && e in t.uses && t.uses[e] == []
  {
    hide NotSimple, PhisWellFormed;
    if t.uses[e] != [] {
      ListedHolds(t, e, 0);
      var u, i := t.uses[e][0].user, t.uses[e][0].argNo;
      NoSlot(s, e, u, i);
    }
  }

  lemma OthersKept(s: Snapshot, t: Snapshot, phis: seq<Value>, erased: set<Value>, u: Value)
    requires Erasing(s, t, phis, erased, {}) && u in s.ops && u !in erased
    ensures u in t.ops && t.ops[u] == s.ops[u]
  {
    hide Settled, Snapshot.TwoWay;
  }

  lemma SurvivorKept(s: Snapshot, t: Snapshot, phis: seq<Value>, erased: set<Value>, p: Value)
    requires Erasing(s, t, phis, erased, {}) && p in phis && p !in erased
    ensures p in t.ops && NotSimple(t.ops[p], p)
  {
    hide NotSimple, PhisWellFormed, Snapshot.TwoWay;
  }

  lemma NobodyUses(t: Snapshot, u: Value, i: nat)
    requires t.TwoWay() && u in t.ops && i < |t.ops[u]| && t.ops[u][i] != null
    ensures t.ops[u][i] in t.uses && t.uses[t.ops[u][i]] != []
  {
    assert t.Times(t.ops[u][i], u, i) == 1;
  }
}
