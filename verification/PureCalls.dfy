/** What purity means for a run: no effect on the memory that functions share, and a result that does not depend on
    it. */
module PureCalls {
  import opened Basics
  import opened FuncInfos

  // ----- where an address may come from -----

  function FirstPointerAt(operands: seq<(Val, bool)>, k: nat): (r: nat)
    requires k <= |operands|
    ensures k <= r <= |operands| && (r < |operands| ==> operands[r].1)
    ensures forall j :: k <= j < r ==> !operands[j].1
    decreases |operands| - k
  {
    if k == |operands| || operands[k].1 then k else FirstPointerAt(operands, k + 1)
  }

  /** Which operand an address computed in some other way has come from at run time. */
  type Choice = Val -> nat

  function Source(operands: seq<(Val, bool)>, k: nat): (r: nat)
    ensures r <= |operands| && (r < |operands| ==> operands[r].1)
  {
    if k < |operands| && operands[k].1 then k else FirstPointerAt(operands, 0)
  }

  /** The address at the start of the chain that was taken. */
  function RootOf(v: Val, pick: Choice): Val {
    match v
    case GepResult(base) => RootOf(base, pick)
    case OtherResult(operands) =>
      var k := Source(operands, pick(v));
      if k == |operands| then v else RootOf(operands[k].0, pick)
    case _ => v
  }

  /** Whichever chain is taken, it starts at an allocation. */
  predicate RootsLocal(v: Val) {
    match v
    case AllocaResult => true
    case GepResult(base) => RootsLocal(base)
    case OtherResult(operands) =>
      && (exists k :: 0 <= k < |operands| && operands[k].1)
      && (forall k :: 0 <= k < |operands| && operands[k].1 ==> RootsLocal(operands[k].0))
    case _ => false
  }

  /** An operand that leads away from the allocations, if there is one. */
  function Stray(v: Val): nat {
    if v.OtherResult? && exists k: nat :: k < |v.operands| && v.operands[k].1 && !RootsLocal(v.operands[k].0) then
      StrayFrom(v.operands, 0)
    else 0
  }

  function StrayFrom(operands: seq<(Val, bool)>, j: nat): (k: nat)
    requires exists k: nat :: j <= k < |operands| && operands[k].1 && !RootsLocal(operands[k].0)
    ensures k < |operands| && operands[k].1 && !RootsLocal(operands[k].0)
    decreases |operands| - j
  {
    if operands[j].1 && !RootsLocal(operands[j].0) then j else StrayFrom(operands, j + 1)
  }

  lemma {:induction false} AlwaysLocal(v: Val, pick: Choice)
    requires RootsLocal(v)
    ensures RootOf(v, pick) == AllocaResult
  {
    match v
    case GepResult(base) => AlwaysLocal(base, pick);
    case OtherResult(operands) => AlwaysLocal(operands[Source(operands, pick(v))].0, pick);
    case _ =>
  }

  lemma {:induction false} SometimesNot(v: Val)
    requires !RootsLocal(v)
    ensures RootOf(v, Stray) != AllocaResult
  {
    match v
    case GepResult(base) => SometimesNot(base);
    case OtherResult(operands) =>
      if Source(operands, Stray(v)) < |operands| {
        SometimesNot(operands[Source(operands, Stray(v))].0);
      }
    case _ =>
  }

  /** No address has more than one pointer to come from. */
  predicate SingleSource(v: Val) {
    match v
    case GepResult(base) => SingleSource(base)
    case OtherResult(operands) =>
      && (forall j, k :: 0 <= j < k < |operands| ==> !operands[j].1 || !operands[k].1)
      && (forall k :: 0 <= k < |operands| && operands[k].1 ==> SingleSource(operands[k].0))
    case _ => true
  }

  /** The analysis looks at one chain only, which is enough if there is no other. */
  lemma {:induction false} OneChain(v: Val)
    ensures RootsLocal(v) ==> IsLocal(v)
    ensures SingleSource(v) && IsLocal(v) ==> RootsLocal(v)
  {
    match v
    case GepResult(base) => OneChain(base);
    case OtherResult(operands) =>
      var k := FirstPointerAt(operands, 0);
      FirstPointerIs(v, 0);
      if k < |operands| {
        OneChain(operands[k].0);
      }
    case _ =>
  }

  lemma {:induction false} FirstPointerIs(v: Val, k: nat)
    requires v.OtherResult? && k <= |v.operands|
    ensures var r := FirstPointerAt(v.operands, k);
            FirstPointer(v, k) == if r == |v.operands| then v else FirstAddr(v.operands[r].0)
    decreases |v.operands| - k
  {
    if k < |v.operands| && !v.operands[k].1 {
      FirstPointerIs(v, k + 1);
    }
  }

  // ----- running -----

  type Memory = map<int, int>

  function Fetch(m: Memory, a: int): int {
    if a in m then m[a] else 0
  }

  /** A function at work: what it was given, and what it has loaded and been returned so far. */
  datatype Moment = Moment(f: FuncId, args: seq<int>, seen: seq<int>) {
    function Saw(x: int): Moment {
      this.(seen := seen + [x])
    }
  }

  datatype Outcome = Outcome(result: Option<int>, shared: Memory)

  /** What the analysis does not look at: which instruction is next, if any, and what it works on. It depends on what
      the function has been given and has seen. */
  datatype Machine = Machine(
    next: Moment -> Option<nat>,
    place: Moment -> int,
    pick: Moment -> Choice,
    stored: Moment -> int,
    passed: Moment -> seq<int>,
    result: Moment -> int,
    external: (Moment, Memory) -> Outcome)

  /** Goes on with a function for `fuel` steps. What it allocates is its own and goes with it; everything else is
      shared. */
  function Resume(funcs: seq<Func>, m: Machine, at: Moment, own: Memory, shared: Memory, fuel: nat): Outcome
    decreases fuel, 0
  {
    if fuel == 0 || at.f >= |funcs| then Outcome(None, shared)
    else if funcs[at.f].isDeclaration then m.external(at, shared)
    else if m.next(at).None? then Outcome(Some(m.result(at)), shared)
    else if m.next(at).value >= |funcs[at.f].body| then Outcome(None, shared)
    else
      match funcs[at.f].body[m.next(at).value]
      case Plain => Resume(funcs, m, at.Saw(0), own, shared, fuel - 1)
      case Load(ptr) =>
        var x := Fetch(if RootOf(ptr, m.pick(at)) == AllocaResult then own else shared, m.place(at));
        Resume(funcs, m, at.Saw(x), own, shared, fuel - 1)
      case Store(ptr) =>
        if RootOf(ptr, m.pick(at)) == AllocaResult then
          Resume(funcs, m, at.Saw(0), own[m.place(at) := m.stored(at)], shared, fuel - 1)
        else Resume(funcs, m, at.Saw(0), own, shared[m.place(at) := m.stored(at)], fuel - 1)
      case Call(g) =>
        var o := Invoke(funcs, m, g, m.passed(at), shared, fuel - 1);
        if o.result.None? then o else Resume(funcs, m, at.Saw(o.result.value), own, o.shared, fuel - 1)
  }

  function Invoke(funcs: seq<Func>, m: Machine, f: FuncId, args: seq<int>, shared: Memory, fuel: nat): Outcome
    decreases fuel, 1
  {
    Resume(funcs, m, Moment(f, args, []), map[], shared, fuel)
  }

  /** Every call leaves the shared memory alone and returns the same for the same arguments. */
  ghost predicate BehavesPurely(funcs: seq<Func>, f: FuncId) {
    forall m: Machine, args, shared: Memory, shared': Memory, fuel: nat
      {:trigger Invoke(funcs, m, f, args, shared, fuel), Invoke(funcs, m, f, args, shared', fuel)} ::
      Invoke(funcs, m, f, args, shared, fuel).shared == shared &&
      Invoke(funcs, m, f, args, shared, fuel).result == Invoke(funcs, m, f, args, shared', fuel).result
  }

  // ----- when it is so -----

  predicate Strays(i: Ins) {
    (i.Store? || i.Load?) && !RootsLocal(i.ptr)
  }

  predicate Escapes(f: Func) {
    f.isDeclaration || exists i :: i in f.body && Strays(i)
  }

  /** A chain of `n` calls leads from `f` to a function that may touch shared memory. */
  ghost predicate EscapesWithin(funcs: seq<Func>, f: FuncId, n: nat)
    decreases n
  {
    f < |funcs| && (Escapes(funcs[f]) || (n > 0 && exists g :: Calls(funcs, f, g) && EscapesWithin(funcs, g, n - 1)))
  }

  ghost predicate Contained(funcs: seq<Func>, f: FuncId) {
    forall n: nat :: !EscapesWithin(funcs, f, n)
  }

  lemma CalleeContained(funcs: seq<Func>, f: FuncId, g: FuncId)
    requires Contained(funcs, f) && Calls(funcs, f, g)
    ensures Contained(funcs, g)
  {
    forall n: nat
      ensures !EscapesWithin(funcs, g, n)
    {
      assert !EscapesWithin(funcs, f, n + 1);
    }
  }

  lemma NothingStrays(funcs: seq<Func>, f: FuncId, k: nat)
    requires Contained(funcs, f) && f < |funcs|
    ensures !funcs[f].isDeclaration
    ensures k < |funcs[f].body| && (funcs[f].body[k].Store? || funcs[f].body[k].Load?) ==>
              RootsLocal(funcs[f].body[k].ptr)
  {
    assert !EscapesWithin(funcs, f, 0);
    if k < |funcs[f].body| {
      assert funcs[f].body[k] in funcs[f].body;
    }
  }

  lemma {:induction false} StaysContained(funcs: seq<Func>, m: Machine, at: Moment, own: Memory, shared: Memory,
                                          shared': Memory, fuel: nat)
    requires Contained(funcs, at.f)
    ensures Resume(funcs, m, at, own, shared, fuel).shared == shared
    ensures Resume(funcs, m, at, own, shared, fuel).result == Resume(funcs, m, at, own, shared', fuel).result
    decreases fuel
  {
    hide Contained, RootOf, RootsLocal;
    if fuel > 0 && at.f < |funcs| {
      var k := if m.next(at).Some? then m.next(at).value else 0;
      NothingStrays(funcs, at.f, k);
      if m.next(at).Some? && k < |funcs[at.f].body| {
        match funcs[at.f].body[k] {
          case Plain => StaysContained(funcs, m, at.Saw(0), own, shared, shared', fuel - 1);
          case Load(ptr) =>
            AlwaysLocal(ptr, m.pick(at));
            StaysContained(funcs, m, at.Saw(Fetch(own, m.place(at))), own, shared, shared', fuel - 1);
          case Store(ptr) =>
            AlwaysLocal(ptr, m.pick(at));
            StaysContained(funcs, m, at.Saw(0), own[m.place(at) := m.stored(at)], shared, shared', fuel - 1);
          case Call(g) =>
            CalleeContained(funcs, at.f, g);
            StaysContained(funcs, m, Moment(g, m.passed(at), []), map[], shared, shared', fuel - 1);
            StaysContained(funcs, m, Moment(g, m.passed(at), []), map[], shared', shared, fuel - 1);
            var o := Invoke(funcs, m, g, m.passed(at), shared, fuel - 1);
            if o.result.Some? {
              StaysContained(funcs, m, at.Saw(o.result.value), own, shared, shared', fuel - 1);
            }
        }
      }
    }
  }

  // ----- when it is not -----

  /** The instruction that leads on, or is itself astray, when `n` more calls may be made. */
  ghost function Lead(funcs: seq<Func>, f: FuncId, n: int): Option<nat> {
    if k: nat :| f < |funcs| && k < |funcs[f].body| && Strays(funcs[f].body[k]) then Some(k)
    else if k: nat :| n > 0 && f < |funcs| && k < |funcs[f].body| && funcs[f].body[k].Call? &&
                      EscapesWithin(funcs, funcs[f].body[k].callee, n - 1) then Some(k)
    else None
  }

  const SPOT := 0
  const MARK := 7

  /** Follows the chain to an access that goes astray. The single argument says how many calls are left. */
  ghost function Chaser(funcs: seq<Func>): Machine {
    Machine(
      (at: Moment) => if at.seen == [] && |at.args| == 1 then Lead(funcs, at.f, at.args[0]) else None,
      (at: Moment) => SPOT,
      (at: Moment) => Stray,
      (at: Moment) => MARK,
      (at: Moment) => if |at.args| == 1 then [at.args[0] - 1] else [],
      (at: Moment) => if at.seen == [] then 0 else at.seen[0],
      (at: Moment, shared: Memory) => Outcome(Some(0), shared[SPOT := MARK]))
  }

  /** It changes what is there, or tells it. */
  ghost predicate Leaks(o: Outcome, x: int) {
    o.result.Some? && (o.shared != map[SPOT := x] || o.result.value == x)
  }

  lemma {:induction false} ChaserLeaks(funcs: seq<Func>, f: FuncId, n: nat, x: int, fuel: nat)
    requires EscapesWithin(funcs, f, n) && x != MARK && fuel >= n + 2
    ensures Leaks(Invoke(funcs, Chaser(funcs), f, [n], map[SPOT := x], fuel), x)
    decreases n
  {
    hide RootOf, RootsLocal;
    var m, at, mem := Chaser(funcs), Moment(f, [n], []), map[SPOT := x];
    assert mem[SPOT := MARK][SPOT] != mem[SPOT];
    if !funcs[f].isDeclaration {
      var k := LeadThere(funcs, f, n);
      assert m.next(at) == Some(k) && m.place(at) == SPOT && m.stored(at) == MARK && m.passed(at) == [n - 1];
      assert m.pick(at) == Stray;
      match funcs[f].body[k] {
        case Load(ptr) =>
          SometimesNot(ptr);
          Returned(funcs, f, [n], x, map[], mem, fuel - 1);
        case Store(ptr) =>
          SometimesNot(ptr);
          Returned(funcs, f, [n], 0, map[], mem[SPOT := MARK], fuel - 1);
        case Call(g) =>
          ChaserLeaks(funcs, g, n - 1, x, fuel - 1);
          var o := Invoke(funcs, m, g, [n - 1], mem, fuel - 1);
          Returned(funcs, f, [n], o.result.value, map[], o.shared, fuel - 1);
      }
    }
  }

  lemma LeadThere(funcs: seq<Func>, f: FuncId, n: nat) returns (k: nat)
    requires EscapesWithin(funcs, f, n) && !funcs[f].isDeclaration
    ensures k < |funcs[f].body| && Chaser(funcs).next(Moment(f, [n], [])) == Some(k)
    ensures var i := funcs[f].body[k];
            Strays(i) || (i.Call? && n > 0 && EscapesWithin(funcs, i.callee, n - 1))
  {
    if Escapes(funcs[f]) {
      var i :| i in funcs[f].body && Strays(i);
      var j: nat :| j < |funcs[f].body| && funcs[f].body[j] == i;
    } else {
      var g :| Calls(funcs, f, g) && EscapesWithin(funcs, g, n - 1);
      var j: nat :| j < |funcs[f].body| && funcs[f].body[j] == Call(g);
    }
    k := Lead(funcs, f, n).value;
  }

  lemma Returned(funcs: seq<Func>, f: FuncId, args: seq<int>, x: int, own: Memory, shared: Memory, fuel: nat)
    requires f < |funcs| && !funcs[f].isDeclaration && fuel > 0
    ensures Resume(funcs, Chaser(funcs), Moment(f, args, []).Saw(x), own, shared, fuel) == Outcome(Some(x), shared)
  {
  }

  /** A function behaves purely exactly if no chain of calls leads to an access that may leave the allocations. */
  lemma PureIffContained(funcs: seq<Func>, f: FuncId)
    ensures BehavesPurely(funcs, f) <==> Contained(funcs, f)
  {
    if Contained(funcs, f) {
      forall m: Machine, args, shared: Memory, shared': Memory, fuel: nat
        {:trigger Invoke(funcs, m, f, args, shared, fuel), Invoke(funcs, m, f, args, shared', fuel)}
        ensures Invoke(funcs, m, f, args, shared, fuel).shared == shared
        ensures Invoke(funcs, m, f, args, shared, fuel).result == Invoke(funcs, m, f, args, shared', fuel).result
      {
        StaysContained(funcs, m, Moment(f, args, []), map[], shared, shared', fuel);
      }
    } else {
      var n: nat :| EscapesWithin(funcs, f, n);
      ChaserLeaks(funcs, f, n, 0, n + 2);
      ChaserLeaks(funcs, f, n, 1, n + 2);
      NotPure(funcs, f, Chaser(funcs), [n], n + 2);
    }
  }

  lemma NotPure(funcs: seq<Func>, f: FuncId, m: Machine, args: seq<int>, fuel: nat)
    requires Leaks(Invoke(funcs, m, f, args, map[SPOT := 0], fuel), 0)
    requires Leaks(Invoke(funcs, m, f, args, map[SPOT := 1], fuel), 1)
    ensures !BehavesPurely(funcs, f)
  {
    hide Invoke;
    assert map[SPOT := 0][SPOT] != map[SPOT := 1][SPOT];
  }

  // ----- what the analysis promises -----

  ghost predicate AccessesSingleSource(funcs: seq<Func>) {
    forall f: FuncId, i :: f < |funcs| && i in funcs[f].body && (i.Store? || i.Load?) ==> SingleSource(i.ptr)
  }

  /** With one source for each address, a function that the analysis calls pure behaves purely. */
  lemma PureBehavesPurely(funcs: seq<Func>, f: FuncId)
    requires AccessesSingleSource(funcs) && !Impure(funcs, f)
    ensures BehavesPurely(funcs, f)
  {
    hide BehavesPurely;
    forall n: nat
      ensures !EscapesWithin(funcs, f, n)
    {
      if EscapesWithin(funcs, f, n) {
        EscapeIsImpure(funcs, f, n);
      }
    }
    PureIffContained(funcs, f);
  }

  lemma {:induction false} EscapeIsImpure(funcs: seq<Func>, f: FuncId, n: nat)
    requires AccessesSingleSource(funcs) && EscapesWithin(funcs, f, n)
    ensures Impure(funcs, f)
    decreases n
  {
    hide SingleSource, RootsLocal, Impure;
    if Escapes(funcs[f]) {
      if i :| i in funcs[f].body && Strays(i) {
        OneChain(i.ptr);
      }
      TriviallySo(funcs, f);
    } else {
      var g :| Calls(funcs, f, g) && EscapesWithin(funcs, g, n - 1);
      EscapeIsImpure(funcs, g, n - 1);
      CallerImpure(funcs, f, g);
    }
  }

  /** A function that may be called from elsewhere, or be given addresses of others. */
  predicate Exposed(f: Func) {
    f.isMain || Pointer in f.params
  }

  /** Each function on the way calls the next one. */
  predicate CallChain(funcs: seq<Func>, chain: seq<FuncId>) {
    && chain != []
    && (forall k :: 0 <= k < |chain| ==> chain[k] < |funcs|)
    && (forall k :: 0 <= k < |chain| - 1 ==> Calls(funcs, chain[k], chain[k + 1]))
  }

  ghost predicate LeadsToExposed(funcs: seq<Func>, f: FuncId) {
    exists chain :: CallChain(funcs, chain) && chain[0] == f && Exposed(funcs[chain[|chain| - 1]])
  }

  /** What the analysis calls pure is exactly what behaves purely and leads neither to the entry of the program nor to
      a function that is given an address. */
  lemma PureExactly(funcs: seq<Func>, f: FuncId)
    requires AccessesSingleSource(funcs)
    ensures !Impure(funcs, f) <==> Contained(funcs, f) && !LeadsToExposed(funcs, f)
    ensures !Impure(funcs, f) <==> BehavesPurely(funcs, f) && !LeadsToExposed(funcs, f)
  {
    hide BehavesPurely, AccessesSingleSource, LeadsToExposed;
    PureIffContained(funcs, f);
    if Impure(funcs, f) {
      var n: nat :| ImpureWithin(funcs, f, n);
      ImpureForAReason(funcs, f, n);
    } else {
      PureBehavesPurely(funcs, f);
      NothingExposed(funcs, f);
    }
  }

  lemma NothingExposed(funcs: seq<Func>, f: FuncId)
    requires !Impure(funcs, f)
    ensures !LeadsToExposed(funcs, f)
  {
    hide Impure;
    if LeadsToExposed(funcs, f) {
      var chain :| CallChain(funcs, chain) && chain[0] == f && Exposed(funcs[chain[|chain| - 1]]);
      ExposedIsImpure(funcs, chain);
      assert false;
    }
  }

  lemma {:induction false} ExposedIsImpure(funcs: seq<Func>, chain: seq<FuncId>)
    requires CallChain(funcs, chain) && Exposed(funcs[chain[|chain| - 1]])
    ensures Impure(funcs, chain[0])
  {
    hide Impure, Calls;
    if |chain| == 1 {
      TriviallySo(funcs, chain[0]);
    } else {
      ExposedIsImpure(funcs, chain[1..]);
      CallerImpure(funcs, chain[0], chain[1]);
    }
  }

  lemma {:induction false} ImpureForAReason(funcs: seq<Func>, f: FuncId, n: nat)
    requires ImpureWithin(funcs, f, n)
    ensures !Contained(funcs, f) || LeadsToExposed(funcs, f)
    decreases n
  {
    hide Contained, LeadsToExposed;
    if TriviallyImpure(funcs[f]) {
      TrivialForAReason(funcs, f);
    } else {
      var g :| Calls(funcs, f, g) && ImpureWithin(funcs, g, n - 1);
      ImpureForAReason(funcs, g, n - 1);
      if Contained(funcs, f) {
        CalleeContained(funcs, f, g);
        CallerLeads(funcs, f, g);
      }
    }
  }

  lemma TrivialForAReason(funcs: seq<Func>, f: FuncId)
    requires f < |funcs| && TriviallyImpure(funcs[f])
    ensures !Contained(funcs, f) || LeadsToExposed(funcs, f)
  {
    if Exposed(funcs[f]) {
      assert CallChain(funcs, [f]) && Exposed(funcs[[f][0]]);
    } else {
      if i :| i in funcs[f].body && IsSideEffect(i) {
        OneChain(i.ptr);
        assert Strays(i);
      }
      assert EscapesWithin(funcs, f, 0);
    }
  }

  lemma CallerLeads(funcs: seq<Func>, f: FuncId, g: FuncId)
    requires Calls(funcs, f, g) && LeadsToExposed(funcs, g)
    ensures LeadsToExposed(funcs, f)
  {
    hide Calls, Exposed;
    var chain :| CallChain(funcs, chain) && chain[0] == g && Exposed(funcs[chain[|chain| - 1]]);
    var longer := [f] + chain;
    assert f < |funcs| by { CallsFromWithin(funcs, f, g); }
    forall k | 0 <= k < |longer| - 1
      ensures Calls(funcs, longer[k], longer[k + 1])
    {
      if k > 0 {
        assert Calls(funcs, chain[k - 1], chain[k - 1 + 1]);
      }
    }
    assert longer[|longer| - 1] == chain[|chain| - 1];
    assert CallChain(funcs, longer) && longer[0] == f;
  }

  lemma CallsFromWithin(funcs: seq<Func>, f: FuncId, g: FuncId)
    requires Calls(funcs, f, g)
    ensures f < |funcs|
  {
  }

  /** A store through an address that is either an allocation or something from outside. */
  function TwoSources(): seq<Func> {
    [Func(false, false, [], [Store(OtherResult([(AllocaResult, true), (Outside, true)]))])]
  }

  /** Otherwise it may be wrong: only the first chain is followed. */
  lemma PureYetNot()
    ensures !Impure(TwoSources(), 0) && !BehavesPurely(TwoSources(), 0)
  {
    hide BehavesPurely;
    var funcs := TwoSources();
    var v := OtherResult([(AllocaResult, true), (Outside, true)]);
    assert !TriviallyImpure(funcs[0]);
    assert forall g :: !Calls(funcs, 0, g);
    assert !RootsLocal(v) by {
      assert v.operands[1].1 && !RootsLocal(v.operands[1].0);
    }
    assert Store(v) in funcs[0].body && Strays(Store(v));
    assert EscapesWithin(funcs, 0, 0);
    PureIffContained(funcs, 0);
  }
}
