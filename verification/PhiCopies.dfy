/** The copies on a control-flow edge: all sources are saved before any phi is written, so the phis change at once. */
module PhiCopies {
  import opened Graphs
  import opened Basics
  import opened LoongArch
  import opened Assembly
  import opened StackIr
  import opened Frames
  import opened Emission

  /** What `phi` receives over the edge from `p`. */
  function PhiVal(s: State, phi: Phi, p: Block): Option<int> {
    var o := Incoming(phi, p);
    if o.None? then None else Eval(s, o.value)
  }

  ghost predicate AllValues(s: State, phis: seq<Phi>, p: Block) {
    forall j: nat {:trigger phis[j]} :: j < |phis| ==> PhiVal(s, phis[j], p).Some?
  }

  /** The state with the first `k` phis assigned; their values are those of the state before. */
  function After(s: State, phis: seq<Phi>, p: Block, k: nat): State
    requires k <= |phis|
  {
    if k == 0 then s
    else
      var before, x := After(s, phis, p, k - 1), PhiVal(s, phis[k - 1], p);
      before.(env := before.env[phis[k - 1].id := if x.Some? then x.value else 0])
  }

  lemma {:induction false} AfterPrefix(s: State, phis: seq<Phi>, p: Block, n: nat, k: nat)
    requires k <= n <= |phis|
    ensures After(s, phis[..n], p, k) == After(s, phis, p, k)
    decreases k
  {
    if k > 0 {
      AfterPrefix(s, phis, p, n, k - 1);
    }
  }

  /** Assigning the phis one by one, from the old values, is assigning them at once. */
  lemma {:induction false} AfterIsCross(s: State, phis: seq<Phi>, p: Block)
    requires PhiValues(phis, p, s).Some?
    ensures AllValues(s, phis, p)
    ensures After(s, phis, p, |phis|) == s.(env := s.env + PhiValues(phis, p, s).value)
    decreases |phis|
  {
    if phis == [] {
      assert s.env + map[] == s.env;
    } else {
      hide PhiValues, PhiVal;
      var front, phi := phis[..|phis| - 1], phis[|phis| - 1];
      LastPhiValue(s, phis, p);
      AfterIsCross(s, front, p);
      AfterPrefix(s, phis, p, |front|, |front|);
      AddUpdated(s.env, PhiValues(front, p, s).value, phi.id, PhiVal(s, phi, p).value);
      MoreValues(s, phis, p);
    }
  }

  lemma MoreValues(s: State, phis: seq<Phi>, p: Block)
    requires phis != [] && AllValues(s, phis[..|phis| - 1], p) && PhiVal(s, phis[|phis| - 1], p).Some?
    ensures AllValues(s, phis, p)
  {
    forall j: nat | j < |phis|
      ensures PhiVal(s, phis[j], p).Some?
    {
      if j < |phis| - 1 {
        assert phis[..|phis| - 1][j] == phis[j];
      }
    }
  }

  lemma AddUpdated(a: map<Id, int>, b: map<Id, int>, k: Id, x: int)
    ensures a + b[k := x] == (a + b)[k := x]
  {
  }

  lemma LastPhiValue(s: State, phis: seq<Phi>, p: Block)
    requires PhiValues(phis, p, s).Some? && phis != []
    ensures var front, phi := phis[..|phis| - 1], phis[|phis| - 1];
            && PhiValues(front, p, s).Some? && PhiVal(s, phi, p).Some?
            && PhiValues(phis, p, s).value == PhiValues(front, p, s).value[phi.id := PhiVal(s, phi, p).value]
  {
  }

  // ----- the two rounds of copying -----

  ghost predicate TempHolds(fr: Frame, m: Memory, phi: Phi, x: int)
    requires phi.ty.Scalar()
  {
    Read(m, fr.fp + At(fr.temps, phi.id), phi.ty.Size()) == x
  }

  /** The phis that stand together at the head of a block. */
  ghost predicate PhiGroup(f: Fun, phis: seq<Phi>) {
    && (forall j: nat {:trigger phis[j]} :: j < |phis| ==> PhiTyped(f, phis[j]) && IsPhi(f, phis[j].id))
    && (forall j: nat, k: nat :: j < k < |phis| ==> phis[j].id != phis[k].id)
  }

  /** Addresses outside the slots and temporaries of these phis. */
  ghost predicate Elsewhere(fr: Frame, phis: seq<Phi>, a: int) {
    forall j: nat {:trigger phis[j]} :: j < |phis| ==>
      Apart(a, 1, fr.fp + At(fr.temps, phis[j].id), phis[j].ty.Size()) &&
      Apart(a, 1, fr.fp + At(fr.offsets, phis[j].id), phis[j].ty.Size())
  }

  ghost predicate OnlyPhisChange(fr: Frame, phis: seq<Phi>, m: Memory, m': Memory) {
    forall a :: Elsewhere(fr, phis, a) ==> m'(a) == m(a)
  }

  /** The first `k` sources have been saved. */
  ghost predicate SavedAt(f: Fun, fr: Frame, s: State, m: Machine, m': Machine, phis: seq<Phi>, p: Block, k: nat)
    requires k <= |phis| && PhiGroup(f, phis)
  {
    && Related(f, fr, s, m') && OnlyPhisChange(fr, phis, m.mem, m'.mem)
    && forall j: nat {:trigger phis[j]} :: j < k && PhiVal(s, phis[j], p).Some? ==>
         TempHolds(fr, m'.mem, phis[j], PhiVal(s, phis[j], p).value)
  }

  ghost predicate Saves(f: Fun, base: Frame, code: seq<Asm>, phis: seq<Phi>, p: Block, k: nat)
    requires k <= |phis| && PhiGroup(f, phis)
  {
    Plain(code) && forall fr, s, m {:trigger Related(f, fr, s, m)} ::
      Suits(f, base, fr) && Related(f, fr, s, m) && AllValues(s, phis, p) ==>
      SavedAt(f, fr, s, m, Exec(code, m), phis, p, k)
  }

  /** All sources have been saved, and the first `k` phis written. */
  ghost predicate CopiedAt(f: Fun, fr: Frame, s: State, m: Machine, m': Machine, phis: seq<Phi>, p: Block, k: nat)
    requires k <= |phis| && PhiGroup(f, phis)
  {
    && Related(f, fr, After(s, phis, p, k), m') && OnlyPhisChange(fr, phis, m.mem, m'.mem)
    && forall j: nat {:trigger phis[j]} :: j < |phis| && PhiVal(s, phis[j], p).Some? ==>
         TempHolds(fr, m'.mem, phis[j], PhiVal(s, phis[j], p).value)
  }

  ghost predicate Copies(f: Fun, base: Frame, code: seq<Asm>, phis: seq<Phi>, p: Block, k: nat)
    requires k <= |phis| && PhiGroup(f, phis)
  {
    Plain(code) && forall fr, s, m {:trigger Related(f, fr, s, m)} ::
      Suits(f, base, fr) && Related(f, fr, s, m) && AllValues(s, phis, p) ==>
      CopiedAt(f, fr, s, m, Exec(code, m), phis, p, k)
  }

  lemma SavesNone(f: Fun, base: Frame, phis: seq<Phi>, p: Block)
    requires PhiGroup(f, phis)
    ensures Saves(f, base, [], phis, p, 0)
  {
  }

  /** Code that loads `x` and then stores it to `a`. */
  lemma LoadThenStore(c1: seq<Asm>, c2: seq<Asm>, m: Machine, x: int, off: int, n: nat)
    requires n > 0 && Loads(c1, m, T0, x) && StoresSlot(c2, off, n, T0) && Is64(m.regs[FP] + off)
    ensures var m' := Exec(c1 + c2, m);
            && m'.mem == Write(m.mem, m.regs[FP] + off, n, x)
            && forall r: Reg :: r != T0 && r != T8 ==> m'.regs[r] == m.regs[r]
  {
    hide Write, Exec, Plain, Read;
    ExecConcat(c1, c2, m);
    var m1 := Exec(c1, m);
    assert Stores(c2, m1, m1.regs[FP] + off, n, m1.regs[T0]);
  }

  lemma IncomingTyped(f: Fun, phi: Phi, p: Block)
    requires PhiTyped(f, phi) && Incoming(phi, p).Some?
    ensures HasType(f, Incoming(phi, p).value, phi.ty)
  {
    var i :| 0 <= i < |phi.incoming| && phi.incoming[i] == (Incoming(phi, p).value, p);
  }

  lemma SaveOne(f: Fun, base: Frame, code: seq<Asm>, c1: seq<Asm>, c2: seq<Asm>, phis: seq<Phi>, p: Block, k: nat)
    requires k < |phis| && PhiGroup(f, phis) && Saves(f, base, code, phis, p, k)
    requires Incoming(phis[k], p).Some? && LoadsOperand(f, base, c1, Incoming(phis[k], p).value, T0)
    requires phis[k].ty.Scalar() && StoresSlot(c2, At(base.temps, phis[k].id), phis[k].ty.Size(), T0)
    ensures Saves(f, base, code + (c1 + c2), phis, p, k + 1)
  {
    hide Suits, Related, SavedAt, PhiGroup;
    assert Plain(c1 + c2);
    PlainConcat(code, c1 + c2);
    forall fr, s, m | Suits(f, base, fr) && Related(f, fr, s, m) && AllValues(s, phis, p)
      ensures SavedAt(f, fr, s, m, Exec(code + (c1 + c2), m), phis, p, k + 1)
    {
      ExecConcat(code, c1 + c2, m);
      SaveOneAt(f, base, fr, s, m, Exec(code, m), c1, c2, phis, p, k);
    }
  }

  lemma SaveOneAt(f: Fun, base: Frame, fr: Frame, s: State, m: Machine, m1: Machine, c1: seq<Asm>, c2: seq<Asm>,
                  phis: seq<Phi>, p: Block, k: nat)
    requires k < |phis| && PhiGroup(f, phis) && Suits(f, base, fr) && AllValues(s, phis, p)
    requires SavedAt(f, fr, s, m, m1, phis, p, k)
    requires Incoming(phis[k], p).Some? && LoadsOperand(f, base, c1, Incoming(phis[k], p).value, T0)
    requires phis[k].ty.Scalar() && StoresSlot(c2, At(base.temps, phis[k].id), phis[k].ty.Size(), T0)
    ensures SavedAt(f, fr, s, m, Exec(c1 + c2, m1), phis, p, k + 1)
  {
    hide Stands, Exec, Write, Read, LaidOut, IsPhi, StoresSlot, Addressable, Loads;
    var phi, o := phis[k], Incoming(phis[k], p).value;
    var x, m2 := PhiVal(s, phi, p).value, Exec(c1 + c2, m1);
    SlotAddress(f, base, fr, Temp(phi.id));
    assert Loads(c1, m1, T0, x);
    LoadThenStore(c1, c2, m1, x, At(base.temps, phi.id), phi.ty.Size());
    StoreTemp(f, fr, s, m1.mem, phi.id, x);
    IncomingTyped(f, phi, p);
    OperandHolds(f, fr, s, m1, o, phi.ty);
    HoldsFits(phi.ty, x);
    ReadWritten(m1.mem, fr.fp + At(fr.temps, phi.id), phi.ty.Size(), x);
    forall j: nat | j < k
      ensures TempHolds(fr, m2.mem, phis[j], PhiVal(s, phis[j], p).value)
    {
      TempsApart(f, base, fr, phis, j, k, m1.mem, x);
    }
    StillElsewhere(fr, phis, k, m.mem, m1.mem, x);
  }

  /** Saving one source leaves the others saved. */
  lemma TempsApart(f: Fun, base: Frame, fr: Frame, phis: seq<Phi>, j: nat, k: nat, m: Memory, x: int)
    requires PhiGroup(f, phis) && Suits(f, base, fr) && j < |phis| && k < |phis| && j != k
    ensures phis[k].ty.Scalar() && phis[j].ty.Scalar()
    ensures var a := fr.fp + At(fr.temps, phis[k].id);
            var b := fr.fp + At(fr.temps, phis[j].id);
            Read(Write(m, a, phis[k].ty.Size(), x), b, phis[j].ty.Size()) == Read(m, b, phis[j].ty.Size())
  {
    hide LaidOut, Read, Write, IsPhi, Addressable;
    SlotsApart(f, fr, Temp(phis[k].id), Temp(phis[j].id));
    ReadElsewhere(m, fr.fp + At(fr.temps, phis[k].id), phis[k].ty.Size(), x, fr.fp + At(fr.temps, phis[j].id),
                  phis[j].ty.Size());
  }

  /** Writing one phi leaves the saved sources in place. */
  lemma SlotAndTempApart(f: Fun, base: Frame, fr: Frame, phis: seq<Phi>, j: nat, k: nat, m: Memory, x: int)
    requires PhiGroup(f, phis) && Suits(f, base, fr) && j < |phis| && k < |phis|
    ensures phis[k].ty.Scalar() && phis[j].ty.Scalar()
    ensures var a := fr.fp + At(fr.offsets, phis[k].id);
            var b := fr.fp + At(fr.temps, phis[j].id);
            Read(Write(m, a, phis[k].ty.Size(), x), b, phis[j].ty.Size()) == Read(m, b, phis[j].ty.Size())
  {
    hide LaidOut, Read, Write, IsPhi, Addressable;
    SlotsApart(f, fr, Slot(phis[k].id), Temp(phis[j].id));
    ReadElsewhere(m, fr.fp + At(fr.offsets, phis[k].id), phis[k].ty.Size(), x, fr.fp + At(fr.temps, phis[j].id),
                  phis[j].ty.Size());
  }

  lemma StillElsewhere(fr: Frame, phis: seq<Phi>, k: nat, m: Memory, m1: Memory, x: int)
    requires k < |phis| && phis[k].ty.Scalar() && OnlyPhisChange(fr, phis, m, m1)
    ensures OnlyPhisChange(fr, phis, m, Write(m1, fr.fp + At(fr.temps, phis[k].id), phis[k].ty.Size(), x))
    ensures OnlyPhisChange(fr, phis, m, Write(m1, fr.fp + At(fr.offsets, phis[k].id), phis[k].ty.Size(), x))
  {
    hide Write;
    forall a | Elsewhere(fr, phis, a)
      ensures Write(m1, fr.fp + At(fr.temps, phis[k].id), phis[k].ty.Size(), x)(a) == m(a)
      ensures Write(m1, fr.fp + At(fr.offsets, phis[k].id), phis[k].ty.Size(), x)(a) == m(a)
    {
      WriteElsewhere(m1, fr.fp + At(fr.temps, phis[k].id), phis[k].ty.Size(), x, a);
      WriteElsewhere(m1, fr.fp + At(fr.offsets, phis[k].id), phis[k].ty.Size(), x, a);
    }
  }

  lemma CopiesNone(f: Fun, base: Frame, code: seq<Asm>, phis: seq<Phi>, p: Block)
    requires PhiGroup(f, phis) && Saves(f, base, code, phis, p, |phis|)
    ensures Copies(f, base, code, phis, p, 0)
  {
    hide Suits, Related, TempHolds;
    forall fr, s, m | Suits(f, base, fr) && Related(f, fr, s, m) && AllValues(s, phis, p)
      ensures CopiedAt(f, fr, s, m, Exec(code, m), phis, p, 0)
    {
      assert SavedAt(f, fr, s, m, Exec(code, m), phis, p, |phis|);
    }
  }

  lemma CopyOne(f: Fun, base: Frame, code: seq<Asm>, c1: seq<Asm>, c2: seq<Asm>, phis: seq<Phi>, p: Block, k: nat)
    requires k < |phis| && PhiGroup(f, phis) && Copies(f, base, code, phis, p, k) && phis[k].ty.Scalar()
    requires LoadsSlot(c1, At(base.temps, phis[k].id), phis[k].ty.Size(), T0)
    requires StoresSlot(c2, At(base.offsets, phis[k].id), phis[k].ty.Size(), T0)
    requires Incoming(phis[k], p).Some?
    ensures Copies(f, base, code + (c1 + c2), phis, p, k + 1)
  {
    hide Suits, Related, CopiedAt, PhiGroup;
    assert Plain(c1 + c2);
    PlainConcat(code, c1 + c2);
    forall fr, s, m | Suits(f, base, fr) && Related(f, fr, s, m) && AllValues(s, phis, p)
      ensures CopiedAt(f, fr, s, m, Exec(code + (c1 + c2), m), phis, p, k + 1)
    {
      ExecConcat(code, c1 + c2, m);
      SourceHolds(f, fr, s, m, phis, p, k);
      CopyOneAt(f, base, fr, s, m, Exec(code, m), c1, c2, phis, p, k);
    }
  }

  lemma SourceHolds(f: Fun, fr: Frame, s: State, m: Machine, phis: seq<Phi>, p: Block, k: nat)
    requires k < |phis| && PhiGroup(f, phis) && Related(f, fr, s, m) && AllValues(s, phis, p)
    ensures Incoming(phis[k], p).Some? && phis[k].ty.Holds(PhiVal(s, phis[k], p).value)
  {
    hide Related, IsPhi;
    IncomingTyped(f, phis[k], p);
    OperandHolds(f, fr, s, m, Incoming(phis[k], p).value, phis[k].ty);
  }

  lemma CopyOneAt(f: Fun, base: Frame, fr: Frame, s: State, m: Machine, m1: Machine, c1: seq<Asm>, c2: seq<Asm>,
                  phis: seq<Phi>, p: Block, k: nat)
    requires k < |phis| && PhiGroup(f, phis) && Suits(f, base, fr) && AllValues(s, phis, p)
    requires CopiedAt(f, fr, s, m, m1, phis, p, k) && phis[k].ty.Scalar()
    requires phis[k].ty.Holds(PhiVal(s, phis[k], p).value)
    requires LoadsSlot(c1, At(base.temps, phis[k].id), phis[k].ty.Size(), T0)
    requires StoresSlot(c2, At(base.offsets, phis[k].id), phis[k].ty.Size(), T0)
    ensures CopiedAt(f, fr, s, m, Exec(c1 + c2, m1), phis, p, k + 1)
  {
    hide Stands, Exec, Write, Read, LaidOut, IsPhi, StoresSlot, Addressable, Loads;
    var phi, m2 := phis[k], Exec(c1 + c2, m1);
    var x := PhiVal(s, phi, p).value;
    SlotAddress(f, base, fr, Temp(phi.id));
    SlotAddress(f, base, fr, Slot(phi.id));
    assert TempHolds(fr, m1.mem, phi, x);
    assert Loads(c1, m1, T0, x);
    LoadThenStore(c1, c2, m1, x, At(base.offsets, phi.id), phi.ty.Size());
    StoreSlot(f, fr, After(s, phis, p, k), m1.mem, phi.id, x);
    forall j: nat | j < |phis|
      ensures TempHolds(fr, m2.mem, phis[j], PhiVal(s, phis[j], p).value)
    {
      SlotAndTempApart(f, base, fr, phis, j, k, m1.mem, x);
    }
    StillElsewhere(fr, phis, k, m.mem, m1.mem, x);
  }

  // ----- a whole edge -----

  /** The code crosses the edge: every phi slot holds what came in, as if all were assigned at once, and no byte
      outside the phis' slots and temporaries has changed. */
  ghost predicate CopiesEdge(f: Fun, base: Frame, code: seq<Asm>, p: Block, b: Block)
    requires b < |f.blocks|
  {
    Plain(code) && forall fr, s, m {:trigger Related(f, fr, s, m)} ::
      Suits(f, base, fr) && Related(f, fr, s, m) && Cross(f, p, b, s).Some? ==>
      Related(f, fr, Cross(f, p, b, s).value, Exec(code, m)) &&
      OnlyPhisChange(fr, f.blocks[b].phis, m.mem, Exec(code, m).mem)
  }

  lemma EdgeCopied(f: Fun, base: Frame, code: seq<Asm>, p: Block, b: Block)
    requires b < |f.blocks| && PhiGroup(f, f.blocks[b].phis)
    requires Copies(f, base, code, f.blocks[b].phis, p, |f.blocks[b].phis|)
    ensures CopiesEdge(f, base, code, p, b)
  {
    hide Suits, Related, PhiGroup, TempHolds, OnlyPhisChange;
    var phis := f.blocks[b].phis;
    forall fr, s, m | Suits(f, base, fr) && Related(f, fr, s, m) && Cross(f, p, b, s).Some?
      ensures Related(f, fr, Cross(f, p, b, s).value, Exec(code, m))
      ensures OnlyPhisChange(fr, phis, m.mem, Exec(code, m).mem)
    {
      AfterIsCross(s, phis, p);
      assert CopiedAt(f, fr, s, m, Exec(code, m), phis, p, |phis|);
    }
  }
}
