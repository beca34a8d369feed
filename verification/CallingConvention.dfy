/** Where the calling convention passes arguments, and when the allocator leaves them there. */
module CallingConvention {
  import opened Lowered
  import opened Intervals
  import opened RegisterRun
  import opened RegisterAssignment

  /** The classes of a function's parameters in order; pointers are of neither class. */
  type Signature = seq<Class>

  /** The argument registers of each bank: $a0 to $a7, and $fa0 to $fa7. */
  const PASSED_IN_REGS := 8

  predicate InFloatBank(c: Class) {
    c == FloatClass
  }

  /** How many of the first `k` parameters are passed in the bank. */
  function Counted(sig: Signature, isFloat: bool, k: nat): (n: nat)
    requires k <= |sig|
    ensures n <= k
  {
    if k == 0 then 0 else Counted(sig, isFloat, k - 1) + if InFloatBank(sig[k - 1]) == isFloat then 1 else 0
  }

  /** The number of parameters before the `i`-th one that are passed in its bank. */
  function Before(sig: Signature, i: nat): nat
    requires i < |sig|
  {
    Counted(sig, InFloatBank(sig[i]), i)
  }

  /** Each bank is counted on its own, and pointers are passed like integers. */
  function Passed(sig: Signature, i: nat, v: Val): Loc
    requires i < |sig|
  {
    if Before(sig, i) < PASSED_IN_REGS then Register(InFloatBank(sig[i]), Before(sig, i) + 1) else Own(v)
  }

  /** The arguments are the parameters of the signature. */
  ghost predicate Signed(f: Fun, values: Val -> RegValue, sig: Signature) {
    && (forall v :: v in f.args ==> values(v).Argument? && values(v).no < |sig| && values(v).cls == sig[values(v).no])
    && (forall i {:trigger sig[i]} :: 0 <= i < |sig| ==> exists v :: v in f.args && values(v).no == i)
  }

  /** Every integer and every float is where the convention passes it. */
  ghost predicate PlacedAsPassed(f: Fun, values: Val -> RegValue, sig: Signature, loc: Locator)
    requires Signed(f, values, sig)
  {
    forall v :: v in f.args && values(v).cls != OtherClass ==> loc(v) == Passed(sig, values(v).no, v)
  }

  /** Integers and floats that the convention passes in registers come after parameters of their own bank only. */
  predicate BanksApart(sig: Signature) {
    forall i {:trigger sig[i]} :: 0 <= i < |sig| && sig[i] != OtherClass && Before(sig, i) < PASSED_IN_REGS ==>
      forall j :: 0 <= j < i ==> InFloatBank(sig[j]) == InFloatBank(sig[i])
  }

  /** All of the first `k` are counted exactly if all are in the bank. */
  lemma {:induction false} AllCounted(sig: Signature, isFloat: bool, k: nat)
    requires k <= |sig|
    ensures Counted(sig, isFloat, k) == k <==> forall j :: 0 <= j < k ==> InFloatBank(sig[j]) == isFloat
  {
    if k > 0 {
      AllCounted(sig, isFloat, k - 1);
    }
  }

  /** One argument: its index is right exactly if nothing of the other bank comes before it, or if the convention, too,
      leaves it in memory. */
  lemma OneAsPassed(sig: Signature, i: nat, x: RegValue, v: Val)
    requires i < |sig| && x.Argument? && x.no == i && x.cls == sig[i] != OtherClass
    ensures PlaceByIndex(x, v) == Passed(sig, i, v) <==>
            (Before(sig, i) < PASSED_IN_REGS ==>
               forall j :: 0 <= j < i ==> InFloatBank(sig[j]) == InFloatBank(sig[i]))
  {
    AllCounted(sig, InFloatBank(sig[i]), i);
  }

  /** The allocator, which goes by the index among all parameters, leaves integers and floats where the convention
      passes them if and only if the banks do not mix in front of any of them. */
  lemma AsPassedIff(f: Fun, values: Val -> RegValue, sig: Signature, loc: Locator)
    requires Signed(f, values, sig) && PlacedByIndex(f, values, loc)
    ensures PlacedAsPassed(f, values, sig, loc) <==> BanksApart(sig)
  {
    hide Counted, PlaceByIndex, Passed;
    if BanksApart(sig) {
      forall v | v in f.args && values(v).cls != OtherClass
        ensures loc(v) == Passed(sig, values(v).no, v)
      {
        OneAsPassed(sig, values(v).no, values(v), v);
      }
    }
    if PlacedAsPassed(f, values, sig, loc) {
      forall i | 0 <= i < |sig| && sig[i] != OtherClass && Before(sig, i) < PASSED_IN_REGS
        ensures forall j :: 0 <= j < i ==> InFloatBank(sig[j]) == InFloatBank(sig[i])
      {
        var v :| v in f.args && values(v).no == i;
        OneAsPassed(sig, i, values(v), v);
      }
    }
  }

  /** An integer after a float arrives in the first integer register, but is looked for in the second. */
  lemma IntAfterFloat(v: Val)
    ensures var sig := [FloatClass, IntClass];
            && !BanksApart(sig) && Passed(sig, 1, v) == Register(false, 1)
            && PlaceByIndex(Argument(v, 1, IntClass), v) == Register(false, 2)
  {
    var sig := [FloatClass, IntClass];
    assert Counted(sig, false, 1) == 0;
    assert InFloatBank(sig[0]) != InFloatBank(sig[1]);
  }

  /** An integer after eight floats arrives there too, but is looked for in memory. */
  lemma IntAfterEightFloats(v: Val)
    ensures var sig := seq(8, i => FloatClass) + [IntClass];
            && Passed(sig, 8, v) == Register(false, 1) && PlaceByIndex(Argument(v, 8, IntClass), v) == Own(v)
  {
    var sig := seq(8, i => FloatClass) + [IntClass];
    NoneCounted(sig, 8);
  }

  lemma {:induction false} NoneCounted(sig: Signature, k: nat)
    requires k <= |sig| && forall j :: 0 <= j < k ==> sig[j] == FloatClass
    ensures Counted(sig, false, k) == 0
  {
    if k > 0 {
      NoneCounted(sig, k - 1);
    }
  }
}
