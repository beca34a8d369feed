/** Which functions are pure: those from which no call chain leads to a function with an effect of its own. */
module FuncInfos {

  type FuncId = nat

  datatype ParamTy = Int | Float | Pointer

  /** Where an address comes from: each value lists the addresses it is computed from. */
  datatype Val =
    | Outside
    | AllocaResult
    | GepResult(base: Val)
    | LoadResult
    | OtherResult(operands: seq<(Val, bool)>)

  datatype Ins = Store(ptr: Val) | Load(ptr: Val) | Call(callee: FuncId) | Plain

  datatype Func = Func(isDeclaration: bool, isMain: bool, params: seq<ParamTy>, body: seq<Ins>)

  /** The first address on the way back, through address computations and the first pointer operand otherwise. */
  function FirstAddr(v: Val): Val
    decreases v, 1, 0
  {
    match v
    case GepResult(base) => FirstAddr(base)
    case OtherResult(_) => FirstPointer(v, 0)
    case _ => v
  }

  function FirstPointer(v: Val, k: nat): Val
    requires v.OtherResult? && k <= |v.operands|
    decreases v, 0, |v.operands| - k
  {
    if k == |v.operands| then v
    else if v.operands[k].1 then FirstAddr(v.operands[k].0)
    else FirstPointer(v, k + 1)
  }

  predicate IsLocal(ptr: Val) {
    FirstAddr(ptr) == AllocaResult
  }

  predicate IsSideEffect(i: Ins) {
    (i.Store? || i.Load?) && !IsLocal(i.ptr)
  }

  /** A function with an effect of its own, or that could have one through its arguments or callers. */
  predicate TriviallyImpure(f: Func) {
    || f.isDeclaration || f.isMain
    || (exists p :: p in f.params && p == Pointer)
    || (exists i :: i in f.body && IsSideEffect(i))
  }

  predicate Calls(funcs: seq<Func>, a: FuncId, b: FuncId) {
    a < |funcs| && Call(b) in funcs[a].body
  }

  /** A chain of `n` calls leads from `f` to a trivially impure function. */
  ghost predicate ImpureWithin(funcs: seq<Func>, f: FuncId, n: nat)
    decreases n
  {
    f < |funcs| && (TriviallyImpure(funcs[f]) ||
                    (n > 0 && exists g :: Calls(funcs, f, g) && ImpureWithin(funcs, g, n - 1)))
  }

  ghost predicate Impure(funcs: seq<Func>, f: FuncId) {
    exists n: nat :: ImpureWithin(funcs, f, n)
  }

  predicate Marked(isPure: map<FuncId, bool>, f: FuncId) {
    f in isPure && !isPure[f]
  }

  ghost predicate UsersOk(funcs: seq<Func>, users: seq<seq<FuncId>>) {
    && |users| == |funcs|
    && (forall a: FuncId, b: FuncId {:trigger Calls(funcs, a, b)} :: b < |users| ==> (a in users[b] <==> Calls(funcs, a, b)))
  }

  /** The first `k` functions have been looked at. */
  ghost predicate Looked(funcs: seq<Func>, isPure: map<FuncId, bool>, worklist: seq<FuncId>, k: nat) {
    && (forall f: FuncId :: f in isPure <==> f < k)
    && (forall f: FuncId :: f < k && f < |funcs| ==> (Marked(isPure, f) <==> TriviallyImpure(funcs[f])))
    && (forall f: FuncId :: f in worklist <==> Marked(isPure, f))
  }

  /** Marks are right, and every caller of a marked function is marked, unless the function still waits for its turn. */
  ghost predicate Spreading(funcs: seq<Func>, isPure: map<FuncId, bool>, worklist: seq<FuncId>, now: FuncId,
                            told: seq<FuncId>)
  {
    && (forall f: FuncId :: f in isPure <==> f < |funcs|)
    && (forall f: FuncId :: Marked(isPure, f) ==> Impure(funcs, f))
    && (forall f: FuncId :: f < |funcs| && TriviallyImpure(funcs[f]) ==> Marked(isPure, f))
    && (forall f: FuncId :: f in worklist ==> Marked(isPure, f))
    && (forall a: FuncId, b: FuncId {:trigger Calls(funcs, a, b)} :: Calls(funcs, a, b) && Marked(isPure, b) ==>
          Marked(isPure, a) || b in worklist || (b == now && a !in told))
  }

  /** When nothing waits any more, the marks are exactly the impure functions. */
  lemma {:induction false} AllFound(funcs: seq<Func>, isPure: map<FuncId, bool>, f: FuncId, n: nat)
    requires Spreading(funcs, isPure, [], |funcs|, []) && ImpureWithin(funcs, f, n)
    ensures Marked(isPure, f)
    decreases n
  {
    hide TriviallyImpure;
    if !TriviallyImpure(funcs[f]) {
      var g :| Calls(funcs, f, g) && ImpureWithin(funcs, g, n - 1);
      AllFound(funcs, isPure, g, n - 1);
    }
  }

  lemma CallerImpure(funcs: seq<Func>, a: FuncId, b: FuncId)
    requires Calls(funcs, a, b) && Impure(funcs, b)
    ensures Impure(funcs, a)
  {
    var n: nat :| ImpureWithin(funcs, b, n);
    assert ImpureWithin(funcs, a, n + 1);
  }

  lemma TriviallySo(funcs: seq<Func>, f: FuncId)
    requires f < |funcs| && TriviallyImpure(funcs[f])
    ensures Impure(funcs, f)
  {
    assert ImpureWithin(funcs, f, 0);
  }

  lemma StartSpreading(funcs: seq<Func>, isPure: map<FuncId, bool>, worklist: seq<FuncId>)
    requires Looked(funcs, isPure, worklist, |funcs|)
    ensures Spreading(funcs, isPure, worklist, |funcs|, [])
  {
    hide TriviallyImpure;
    forall f: FuncId | Marked(isPure, f)
      ensures Impure(funcs, f)
    {
      TriviallySo(funcs, f);
    }
  }

  class FuncInfo {
    const funcs: seq<Func>
    /** The functions whose instructions use each function, in the order of its use list. */
    const users: seq<seq<FuncId>>
    var isPure: map<FuncId, bool>
    var worklist: seq<FuncId>

    constructor (funcs: seq<Func>, users: seq<seq<FuncId>>)
      ensures this.funcs == funcs && this.users == users
    {
      this.funcs, this.users := funcs, users;
      isPure, worklist := map[], [];
    }

    /** A function is impure exactly if a chain of calls leads from it to one with an effect of its own. */
    method Run()
      requires UsersOk(funcs, users)
      modifies this
      ensures forall f: FuncId :: f < |funcs| ==> f in isPure && (isPure[f] <==> !Impure(funcs, f))
    {
      hide TriviallyImpure, Spreading, Looked, Impure, UsersOk;
      isPure, worklist := map[], [];
      NothingLooked(funcs);
      for f := 0 to |funcs|
        invariant Looked(funcs, isPure, worklist, f)
      {
        LookMore(funcs, isPure, worklist, f);
        var trivial := TrivialMark(f);
        isPure := isPure[f := !trivial];
        if !isPure[f] {
          worklist := worklist + [f];
        }
      }
      StartSpreading(funcs, isPure, worklist);
      while worklist != []
        invariant Spreading(funcs, isPure, worklist, |funcs|, [])
        decreases PureOnes(isPure), |worklist|
      {
        Process(worklist[0]);
      }
      Exact(funcs, isPure);
    }

    method TrivialMark(f: FuncId) returns (impure: bool)
      requires f < |funcs|
      ensures impure <==> TriviallyImpure(funcs[f])
    {
      var func := funcs[f];
      if func.isDeclaration || func.isMain {
        return true;
      }
      for i := 0 to |func.params|
        invariant forall j :: 0 <= j < i ==> func.params[j] != Pointer
      {
        assert func.params[i] in func.params;
        if func.params[i] == Pointer {
          return true;
        }
      }
      for i := 0 to |func.body|
        invariant forall j :: 0 <= j < i ==> !IsSideEffect(func.body[j])
      {
        assert func.body[i] in func.body;
        if IsSideEffect(func.body[i]) {
          return true;
        }
      }
      return false;
    }

    /** Takes a function from the worklist and marks its callers. */
    method Process(now: FuncId)
      requires UsersOk(funcs, users) && Spreading(funcs, isPure, worklist, |funcs|, []) && worklist != []
      requires worklist[0] == now
      modifies this`isPure, this`worklist
      ensures Spreading(funcs, isPure, worklist, |funcs|, [])
      ensures PureOnes(isPure) < PureOnes(old(isPure)) || (isPure == old(isPure) && |worklist| < |old(worklist)|)
    {
      hide TriviallyImpure, Spreading, Impure, UsersOk;
      TakeOne(funcs, users, isPure, worklist);
      worklist := worklist[1..];
      ghost var before := isPure;
      ghost var size := |worklist|;
      for i := 0 to |users[now]|
        invariant Spreading(funcs, isPure, worklist, now, users[now][..i]) && Marked(isPure, now)
        invariant PureOnes(isPure) < PureOnes(before) || (isPure == before && |worklist| == size)
      {
        var caller := users[now][i];
        assert users[now][..i + 1] == users[now][..i] + [caller];
        IsCaller(funcs, users, now, i);
        TellCaller(funcs, isPure, worklist, now, users[now][..i], caller);
        if isPure[caller] {
          FewerPure(isPure, caller);
          isPure := isPure[caller := false];
          worklist := worklist + [caller];
        }
      }
      assert users[now][..|users[now]|] == users[now];
      AllTold(funcs, users, isPure, worklist, now);
    }
  }

  ghost function PureOnes(isPure: map<FuncId, bool>): set<FuncId> {
    set f | f in isPure && isPure[f]
  }

  lemma FewerPure(isPure: map<FuncId, bool>, f: FuncId)
    requires f in isPure && isPure[f]
    ensures PureOnes(isPure[f := false]) < PureOnes(isPure)
  {
    assert f in PureOnes(isPure) && f !in PureOnes(isPure[f := false]);
  }

  lemma NothingLooked(funcs: seq<Func>)
    ensures Looked(funcs, map[], [], 0)
  {
  }

  lemma LookMore(funcs: seq<Func>, isPure: map<FuncId, bool>, worklist: seq<FuncId>, f: FuncId)
    requires Looked(funcs, isPure, worklist, f) && f < |funcs|
    ensures var trivial := TriviallyImpure(funcs[f]);
            Looked(funcs, isPure[f := !trivial], if trivial then worklist + [f] else worklist, f + 1)
  {
    hide TriviallyImpure;
  }

  lemma TakeOne(funcs: seq<Func>, users: seq<seq<FuncId>>, isPure: map<FuncId, bool>, worklist: seq<FuncId>)
    requires Spreading(funcs, isPure, worklist, |funcs|, []) && worklist != [] && UsersOk(funcs, users)
    ensures worklist[0] < |users| && Marked(isPure, worklist[0])
    ensures Spreading(funcs, isPure, worklist[1..], worklist[0], [])
  {
    hide TriviallyImpure, Impure;
    assert worklist == [worklist[0]] + worklist[1..];
    assert worklist[0] in worklist;
    forall a: FuncId, b: FuncId | Calls(funcs, a, b) && Marked(isPure, b)
      ensures Marked(isPure, a) || b in worklist[1..] || b == worklist[0]
    {
      assert b < |funcs|;
    }
  }

  lemma IsCaller(funcs: seq<Func>, users: seq<seq<FuncId>>, b: FuncId, i: nat)
    requires UsersOk(funcs, users) && b < |users| && i < |users[b]|
    ensures Calls(funcs, users[b][i], b) && users[b][i] < |funcs|
  {
    assert users[b][i] in users[b];
  }

  lemma TellCaller(funcs: seq<Func>, isPure: map<FuncId, bool>, worklist: seq<FuncId>, now: FuncId, told: seq<FuncId>,
                   caller: FuncId)
    requires Spreading(funcs, isPure, worklist, now, told) && Calls(funcs, caller, now) && caller < |funcs|
    requires Marked(isPure, now)
    ensures caller in isPure
    ensures if isPure[caller] then Spreading(funcs, isPure[caller := false], worklist + [caller], now, told + [caller]) &&
                                   Marked(isPure[caller := false], now)
            else Spreading(funcs, isPure, worklist, now, told + [caller])
  {
    hide TriviallyImpure, Impure;
    CallerImpure(funcs, caller, now);
  }

  lemma AllTold(funcs: seq<Func>, users: seq<seq<FuncId>>, isPure: map<FuncId, bool>, worklist: seq<FuncId>,
                now: FuncId)
    requires UsersOk(funcs, users) && now < |users| && Spreading(funcs, isPure, worklist, now, users[now])
    ensures Spreading(funcs, isPure, worklist, |funcs|, [])
  {
    hide TriviallyImpure, Impure;
  }

  lemma Exact(funcs: seq<Func>, isPure: map<FuncId, bool>)
    requires Spreading(funcs, isPure, [], |funcs|, [])
    ensures forall f: FuncId :: f < |funcs| ==> f in isPure && (isPure[f] <==> !Impure(funcs, f))
  {
    hide TriviallyImpure;
    forall f: FuncId | f < |funcs|
      ensures f in isPure && (isPure[f] <==> !Impure(funcs, f))
    {
      if n: nat :| ImpureWithin(funcs, f, n) {
        AllFound(funcs, isPure, f, n);
      }
    }
  }
}
