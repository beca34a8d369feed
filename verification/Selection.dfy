/** Instruction by instruction: the selected machine code computes the IR instruction. */
module Selection {
  import opened Basics
  import opened LoongArch
  import opened Assembly
  import opened StackIr
  import opened Frames
  import opened Emission

  function CmpCode(cmp: Cmp): seq<Asm> {
    match cmp
    case Eq => [Alu(Xor, T0, T0, T1), Sltui(T0, T0, 1)]
    case Ne => [Alu(Xor, T0, T0, T1), Alu(Sltu, T0, ZERO, T0)]
    case Lt => [Alu(Slt, T0, T0, T1)]
    case Gt => [Alu(Slt, T0, T1, T0)]
    case Le => [Alu(Slt, T0, T1, T0), Sltui(T0, T0, 1)]
    case Ge => [Alu(Slt, T0, T0, T1), Sltui(T0, T0, 1)]
  }

  /** The width of an access: a byte, a word or a double word. */
  function AccessBytes(ty: Ty): nat {
    if ty == I1 then 1 else if ty == I32 then 4 else 8
  }

  lemma ExecTwo(i: Asm, j: Asm, m: Machine)
    ensures Exec([i, j], m) == Exec1(j, Exec1(i, m))
  {
    assert [i, j][..1] == [i];
    ExecOne(i, m);
  }

  /** Unsigned comparison with zero, on either side. */
  lemma UnsignedZero(x: int)
    requires Is64(x)
    ensures x % TWO_64 < 1 <==> x == 0
    ensures 0 < x % TWO_64 <==> x != 0
  {
    SameResidue(x, 0);
  }

  /** The comparison code leaves one for true and zero for false. */
  lemma CmpCodeDecides(cmp: Cmp, m: Machine, x: int, y: int)
    requires m.regs[T0] == x && m.regs[T1] == y && Is64(x) && Is64(y)
    ensures var m' := Exec(CmpCode(cmp), m);
            && m'.regs[T0] == (if CmpHolds(cmp, x, y) then 1 else 0) && m'.mem == m.mem
            && forall r: Reg :: r != T0 ==> m'.regs[r] == m.regs[r]
  {
    hide Exec, Xor64, Wrap64, Wrap32, Read, Write, OrBits, Power2, Quotient;
    var code := CmpCode(cmp);
    if |code| == 2 {
      ExecTwo(code[0], code[1], m);
      assert code == [code[0], code[1]];
      if cmp == Eq || cmp == Ne {
        Xor64Zero(x, y);
        XorWord(x, y);
        UnsignedZero(Xor64(x, y));
      } else {
        SltuiOne();
      }
    } else {
      ExecOne(code[0], m);
    }
  }

  lemma XorWord(x: int, y: int)
    ensures Is64(Xor64(x, y)) && 1 % TWO_64 == 1 && 0 % TWO_64 == 0
  {
    hide XorBits, Wrap64;
  }

  lemma SltuiOne()
    ensures !(1 % TWO_64 < 1 % TWO_64) && 0 % TWO_64 < 1 % TWO_64
  {
  }

  lemma WordHolds(ty: Ty, x: int)
    requires ty.Holds(x)
    ensures Is64(x)
  {
  }

  lemma IcmpComputes(f: Fun, base: Frame, i: Ins, c0: seq<Asm>, c1: seq<Asm>)
    requires i.Icmp? && InsTyped(f, i) && LoadsOperand(f, base, c0, i.l, T0) && LoadsOperand(f, base, c1, i.r, T1)
    ensures Computes(f, base, c0 + c1 + CmpCode(i.cmp), i, T0)
  {
    hide Suits, LayoutOf, LoadsOperand, Stands, Exec;
    OperandsPlain(f, base, c0, i.l, T0, c1, i.r, T1);
    PlainConcat(c0 + c1, CmpCode(i.cmp));
    forall fr, s, m | Suits(f, base, fr) && Related(f, fr, s, m) && ExecIns(f, LayoutOf(f, fr), i, s).Some?
      ensures ComputesAt(f, fr, s, i, Exec(c0 + c1 + CmpCode(i.cmp), m), T0)
    {
      TwoOperands(f, base, fr, s, m, c0, i.l, c1, i.r);
      ExecConcat(c0 + c1, CmpCode(i.cmp), m);
      OperandHolds(f, fr, s, m, i.l, TypeOf(f, i.l));
      OperandHolds(f, fr, s, m, i.r, TypeOf(f, i.r));
      WordHolds(TypeOf(f, i.l), Eval(s, i.l).value);
      WordHolds(TypeOf(f, i.r), Eval(s, i.r).value);
      CmpCodeDecides(i.cmp, Exec(c0 + c1, m), Eval(s, i.l).value, Eval(s, i.r).value);
    }
  }

  lemma OneOperand(f: Fun, base: Frame, fr: Frame, s: State, m: Machine, c: seq<Asm>, o: Operand, reg: Reg)
    requires Suits(f, base, fr) && Related(f, fr, s, m) && Eval(s, o).Some? && LoadsOperand(f, base, c, o, reg)
    requires !Kept(reg) && reg != ZERO
    ensures Related(f, fr, s, Exec(c, m)) && Exec(c, m).regs[reg] == Eval(s, o).value
    ensures forall r: Reg :: r != reg && r != T8 ==> Exec(c, m).regs[r] == m.regs[r]
  {
    hide Suits, Related;
    assert Loads(c, m, reg, Eval(s, o).value);
    LoadKeeps(f, fr, s, c, m, reg, Eval(s, o).value);
  }

  lemma OneBit(x: int)
    requires 0 <= x <= 1
    ensures Wrap32(x / Power2(0) % Power2(1)) == x
  {
    assert Power2(0) == 1 && Power2(1) == 2;
  }

  lemma ZextComputes(f: Fun, base: Frame, i: Ins, c: seq<Asm>)
    requires i.Zext? && InsTyped(f, i) && LoadsOperand(f, base, c, i.v, T0)
    ensures Computes(f, base, c + [BstrpickW(T0, T0, 0, 0)], i, T0)
  {
    hide Suits, Related, LayoutOf, Power2, Wrap32;
    var pick := BstrpickW(T0, T0, 0, 0);
    forall fr, s, m | Suits(f, base, fr) && Related(f, fr, s, m) && ExecIns(f, LayoutOf(f, fr), i, s).Some?
      ensures ComputesAt(f, fr, s, i, Exec(c + [pick], m), T0)
    {
      OneOperand(f, base, fr, s, m, c, i.v, T0);
      OperandHolds(f, fr, s, m, i.v, I1);
      ExecSnoc(c, pick, m);
      OneBit(Eval(s, i.v).value);
      SetKeeps(f, fr, s, Exec(c, m), T0, Eval(s, i.v).value);
    }
  }

  lemma LoadComputes(f: Fun, base: Frame, i: Ins, c: seq<Asm>)
    requires i.Load? && InsTyped(f, i) && LoadsOperand(f, base, c, i.ptr, T0)
    ensures Computes(f, base, c + [Ld(AccessBytes(i.ty), T1, T0, 0)], i, T1)
  {
    hide Suits, Related, LayoutOf, Read, InUser;
    var n := i.ty.Size();
    var ld := Ld(n, T1, T0, 0);
    forall fr, s, m | Suits(f, base, fr) && Related(f, fr, s, m) && ExecIns(f, LayoutOf(f, fr), i, s).Some?
      ensures ComputesAt(f, fr, s, i, Exec(c + [ld], m), T1)
    {
      OneOperand(f, base, fr, s, m, c, i.ptr, T0);
      var a := Eval(s, i.ptr).value;
      ExecSnoc(c, ld, m);
      RelatedLoads(f, fr, s, Exec(c, m), a, n);
      SetKeeps(f, fr, s, Exec(c, m), T1, Read(s.mem, a, n));
    }
  }

  lemma RelatedLoads(f: Fun, fr: Frame, s: State, m: Machine, a: int, n: nat)
    requires Related(f, fr, s, m) && n > 0 && InUser(LayoutOf(f, fr), a, n)
    ensures Read(m.mem, a, n) == Read(s.mem, a, n)
  {
    hide Stands;
    LoadUser(f, fr, s, m.mem, a, n);
  }

  lemma RelatedStores(f: Fun, fr: Frame, s: State, m: Machine, a: int, n: nat, x: int)
    requires LaidOut(f, fr) && Related(f, fr, s, m) && n > 0 && InUser(LayoutOf(f, fr), a, n)
    ensures Related(f, fr, s.(mem := Write(s.mem, a, n, x)), m.(mem := Write(m.mem, a, n, x)))
  {
    hide Stands, LaidOut;
    StoreUser(f, fr, s, m.mem, a, n, x);
  }

  lemma StoreImplements(f: Fun, base: Frame, i: Ins, c0: seq<Asm>, c1: seq<Asm>)
    requires i.Store? && InsTyped(f, i) && LoadsOperand(f, base, c0, i.ptr, T0) && LoadsOperand(f, base, c1, i.val, T1)
    ensures Implements(f, base, c0 + c1 + [St(AccessBytes(TypeOf(f, i.val)), T1, T0, 0)], i)
  {
    hide Related, LayoutOf, Write, InUser, LaidOut;
    var n := TypeOf(f, i.val).Size();
    var st := St(n, T1, T0, 0);
    OperandsPlain(f, base, c0, i.ptr, T0, c1, i.val, T1);
    forall fr, s, m | Suits(f, base, fr) && Related(f, fr, s, m) && ExecIns(f, LayoutOf(f, fr), i, s).Some?
      ensures Related(f, fr, ExecIns(f, LayoutOf(f, fr), i, s).value, Exec(c0 + c1 + [st], m))
    {
      TwoOperands(f, base, fr, s, m, c0, i.ptr, c1, i.val);
      ExecSnoc(c0 + c1, st, m);
      RelatedStores(f, fr, s, Exec(c0 + c1, m), Eval(s, i.ptr).value, n, Eval(s, i.val).value);
    }
  }

  // ----- allocations -----

  /** The code sets `reg` to the frame pointer plus `off`. */
  ghost predicate SetsAddress(code: seq<Asm>, off: int, reg: Reg) {
    Plain(code) && forall m: Machine {:trigger Exec(code, m)} ::
      Is64(m.regs[FP] + off) ==> Exec(code, m) == SetReg(m, reg, m.regs[FP] + off)
  }

  lemma AddressNear(off: int, reg: Reg)
    requires IsImm12(off)
    ensures SetsAddress([AddiD(reg, FP, off)], off, reg)
  {
    forall m: Machine | Is64(m.regs[FP] + off)
      ensures Exec([AddiD(reg, FP, off)], m) == SetReg(m, reg, m.regs[FP] + off)
    {
      ExecOne(AddiD(reg, FP, off), m);
    }
  }

  lemma AddressFar(code: seq<Asm>, off: int, reg: Reg)
    requires LoadsImm(code, reg, off) && reg != ZERO && reg != FP
    ensures SetsAddress(code + [Alu(AddD, reg, FP, reg)], off, reg)
  {
    hide Exec;
    assert Plain(code + [Alu(AddD, reg, FP, reg)]);
    forall m: Machine | Is64(m.regs[FP] + off)
      ensures Exec(code + [Alu(AddD, reg, FP, reg)], m) == SetReg(m, reg, m.regs[FP] + off)
    {
      FarAddress(code, off, reg, m);
    }
  }

  lemma AllocaComputes(f: Fun, base: Frame, i: Ins, code: seq<Asm>)
    requires i.Alloca? && InsTyped(f, i) && IsOwner(f, Area(i.id))
    requires SetsAddress(code, At(base.offsets, i.id) - i.elem.Size(), T0)
    ensures Computes(f, base, code, i, T0)
  {
    hide Related, Suits, IsOwner, Exec, ComputesAt, ExecIns, LayoutOf, SetsAddress;
    AddressPlain(code, At(base.offsets, i.id) - i.elem.Size(), T0);
    forall fr, s, m | Suits(f, base, fr) && Related(f, fr, s, m) && ExecIns(f, LayoutOf(f, fr), i, s).Some?
      ensures ComputesAt(f, fr, s, i, Exec(code, m), T0)
    {
      AllocaAt(f, base, i, code, fr, s, m);
    }
  }

  lemma AddressPlain(code: seq<Asm>, off: int, reg: Reg)
    requires SetsAddress(code, off, reg)
    ensures Plain(code)
  {
  }

  lemma AllocaResult(f: Fun, lay: Layout, i: Ins, s: State)
    requires i.Alloca?
    ensures ExecIns(f, lay, i, s) == Assign(s, i.id, if i.id in lay.areas then Some(lay.areas[i.id]) else None)
  {
  }

  lemma AllocaAt(f: Fun, base: Frame, i: Ins, code: seq<Asm>, fr: Frame, s: State, m: Machine)
    requires i.Alloca? && InsTyped(f, i) && IsOwner(f, Area(i.id))
    requires SetsAddress(code, At(base.offsets, i.id) - i.elem.Size(), T0)
    requires Suits(f, base, fr) && Related(f, fr, s, m) && ExecIns(f, LayoutOf(f, fr), i, s).Some?
    ensures ComputesAt(f, fr, s, i, Exec(code, m), T0)
  {
    hide Related, Suits, IsOwner, Exec, Plain, ExecIns, LayoutOf, Exec1, Wrap32, Wrap64, Read, Write, Ty.Size, InsTyped;
    AllocaResult(f, LayoutOf(f, fr), i, s);
    AreaAddress(f, base, i, fr, s);
    RelatedPointer(f, fr, s, m);
    var off := At(base.offsets, i.id) - i.elem.Size();
    assert Exec(code, m) == SetReg(m, T0, fr.fp + off);
    SetKeeps(f, fr, s, m, T0, fr.fp + off);
  }

  /** Where the layout puts an allocation. */
  lemma AreaAddress(f: Fun, base: Frame, i: Ins, fr: Frame, s: State)
    requires i.Alloca? && InsTyped(f, i) && IsOwner(f, Area(i.id)) && Suits(f, base, fr)
    ensures var a := fr.fp + At(base.offsets, i.id) - i.elem.Size();
            Is64(a) && i.id in LayoutOf(f, fr).areas && LayoutOf(f, fr).areas[i.id] == a
    ensures i.id in f.types && f.types[i.id].Ptr? && f.types[i.id].Holds(fr.fp + At(base.offsets, i.id) - i.elem.Size())
  {
    hide IsOwner, LaidOut;
    SlotAddress(f, base, fr, Area(i.id));
  }

  lemma RelatedPointer(f: Fun, fr: Frame, s: State, m: Machine)
    requires Related(f, fr, s, m)
    ensures m.regs[FP] == fr.fp
  {
    hide Stands;
  }

  // ----- address computations -----

  /** The type that the `k`-th index steps over. */
  function StepType(ty: Ty, k: nat): Ty {
    if k == 0 then ty else if StepType(ty, k - 1).Array? then StepType(ty, k - 1).elem else StepType(ty, k - 1)
  }

  lemma {:induction false} StepTypeInner(ty: Ty, k: nat)
    requires ty.Array?
    ensures StepType(ty.elem, k) == StepType(ty, k + 1)
    decreases k
  {
    if k > 0 {
      StepTypeInner(ty, k - 1);
    }
  }

  /** What the indices up to the `k`-th add up to. */
  function Partial(s: State, ty: Ty, indices: seq<Operand>, k: nat): int
    requires k <= |indices|
  {
    if k == 0 then 0
    else
      Partial(s, ty, indices, k - 1) +
      (if Eval(s, indices[k - 1]).Some? then Eval(s, indices[k - 1]).value else 0) * StepType(ty, k - 1).Size()
  }

  lemma {:induction false} PartialShift(s: State, ty: Ty, indices: seq<Operand>, k: nat)
    requires ty.Array? && |indices| > 1 && 1 <= k <= |indices|
    ensures Partial(s, ty, indices, k) ==
            Partial(s, ty, indices, 1) + Partial(s, ty.elem, indices[1..], k - 1)
    decreases k
  {
    if k > 1 {
      PartialShift(s, ty, indices, k - 1);
      StepTypeInner(ty, k - 2);
      assert indices[1..][k - 2] == indices[k - 1];
    }
  }

  /** Adding up index by index gives the distance, when all indices have values. */
  lemma {:induction false} PartialIsOffset(s: State, ty: Ty, indices: seq<Operand>)
    requires GepOffset(s, ty, indices).Some?
    ensures Partial(s, ty, indices, |indices|) == GepOffset(s, ty, indices).value
    decreases indices
  {
    if |indices| > 1 {
      PartialIsOffset(s, ty.elem, indices[1..]);
      PartialShift(s, ty, indices, |indices|);
      assert Partial(s, ty, indices, 1) == Eval(s, indices[0]).value * ty.Size() by {
        assert Partial(s, ty, indices, 0) == 0 && StepType(ty, 0) == ty;
      }
    } else if |indices| == 1 {
      assert Partial(s, ty, indices, 0) == 0 && StepType(ty, 0) == ty;
      assert GepOffset(s, if ty.Array? then ty.elem else ty, indices[1..]) == Some(0);
    }
  }

  lemma {:induction false} AllIndicesHaveValues(s: State, ty: Ty, indices: seq<Operand>, k: nat)
    requires GepOffset(s, ty, indices).Some? && k < |indices|
    ensures Eval(s, indices[k]).Some?
    decreases indices
  {
    if k > 0 {
      AllIndicesHaveValues(s, ty.elem, indices[1..], k - 1);
    }
  }

  lemma {:induction false} IndexTyped(f: Fun, ty: Ty, indices: seq<Operand>, k: nat)
    requires IndexTypes(f, ty, indices) && k < |indices|
    ensures HasType(f, indices[k], I32) && StepType(ty, k).Size() < TWO_31
    ensures k > 0 ==> StepType(ty, k - 1).Array?
    decreases indices
  {
    if k > 0 {
      IndexTyped(f, ty.elem, indices[1..], k - 1);
      StepTypeInner(ty, k - 1);
      if k > 1 {
        StepTypeInner(ty, k - 2);
      }
    }
  }

  /** The code has added the first `k` indices to the base, in $t0. */
  ghost predicate AddsUp(f: Fun, base: Frame, code: seq<Asm>, i: Ins, k: nat)
    requires i.Gep? && k <= |i.indices| && TypeOf(f, i.base).Ptr?
  {
    Plain(code) && forall fr, s, m {:trigger Related(f, fr, s, m)} ::
      Suits(f, base, fr) && Related(f, fr, s, m) && ExecIns(f, LayoutOf(f, fr), i, s).Some? ==>
      AddedUp(f, fr, s, Exec(code, m), i, k)
  }

  ghost predicate AddedUp(f: Fun, fr: Frame, s: State, m: Machine, i: Ins, k: nat)
    requires i.Gep? && k <= |i.indices| && TypeOf(f, i.base).Ptr?
  {
    Related(f, fr, s, m) && Eval(s, i.base).Some? &&
    m.regs[T0] == Wrap64(Eval(s, i.base).value + Partial(s, TypeOf(f, i.base).elem, i.indices, k))
  }

  lemma GepStart(f: Fun, base: Frame, i: Ins, c: seq<Asm>)
    requires i.Gep? && InsTyped(f, i) && LoadsOperand(f, base, c, i.base, T0)
    ensures AddsUp(f, base, c, i, 0)
  {
    hide Suits, Related, LayoutOf, GepOffset, IndexTypes;
    forall fr, s, m | Suits(f, base, fr) && Related(f, fr, s, m) && ExecIns(f, LayoutOf(f, fr), i, s).Some?
      ensures AddedUp(f, fr, s, Exec(c, m), i, 0)
    {
      OneOperand(f, base, fr, s, m, c, i.base, T0);
      OperandHolds(f, fr, s, m, i.base, TypeOf(f, i.base));
    }
  }

  lemma GepDone(f: Fun, base: Frame, i: Ins, c: seq<Asm>)
    requires i.Gep? && InsTyped(f, i) && AddsUp(f, base, c, i, |i.indices|)
    ensures Computes(f, base, c, i, T0)
  {
    hide Suits, Related, LayoutOf, GepOffset, IndexTypes, Partial, Exec;
    forall fr, s, m | Suits(f, base, fr) && Related(f, fr, s, m) && ExecIns(f, LayoutOf(f, fr), i, s).Some?
      ensures ComputesAt(f, fr, s, i, Exec(c, m), T0)
    {
      assert AddedUp(f, fr, s, Exec(c, m), i, |i.indices|);
      PartialIsOffset(s, TypeOf(f, i.base).elem, i.indices);
    }
  }

  /** One index: load it, load the size, multiply, add. */
  lemma GepStep(f: Fun, base: Frame, i: Ins, k: nat, c: seq<Asm>, c1: seq<Asm>, c2: seq<Asm>)
    requires i.Gep? && InsTyped(f, i) && k < |i.indices| && AddsUp(f, base, c, i, k)
    requires LoadsOperand(f, base, c1, i.indices[k], T1)
    requires LoadsImm(c2, T2, StepType(TypeOf(f, i.base).elem, k).Size())
    ensures AddsUp(f, base, c + c1 + c2 + [Alu(MulD, T1, T1, T2)] + [Alu(AddD, T0, T0, T1)], i, k + 1)
  {
    hide Suits, Related, LayoutOf, GepOffset, IndexTypes, Partial, Exec, LoadsOperand, LoadsImm, StepType;
    var mul, add := Alu(MulD, T1, T1, T2), Alu(AddD, T0, T0, T1);
    GepPlain(f, base, c, c1, c2, i, k);
    forall fr, s, m | Suits(f, base, fr) && Related(f, fr, s, m) && ExecIns(f, LayoutOf(f, fr), i, s).Some?
      ensures AddedUp(f, fr, s, Exec(c + c1 + c2 + [mul] + [add], m), i, k + 1)
    {
      assert AddedUp(f, fr, s, Exec(c, m), i, k);
      AllIndicesHaveValues(s, TypeOf(f, i.base).elem, i.indices, k);
      ExecConcat(c, c1, m);
      ExecConcat(c + c1, c2, m);
      ExecSnoc(c + c1 + c2, mul, m);
      ExecSnoc(c + c1 + c2 + [mul], add, m);
      GepStepAt(f, base, fr, s, i, k, Exec(c, m), c1, c2);
    }
  }

  lemma GepPlain(f: Fun, base: Frame, c: seq<Asm>, c1: seq<Asm>, c2: seq<Asm>, i: Ins, k: nat)
    requires i.Gep? && TypeOf(f, i.base).Ptr? && k < |i.indices| && AddsUp(f, base, c, i, k)
    requires LoadsOperand(f, base, c1, i.indices[k], T1) && LoadsImm(c2, T2, StepType(TypeOf(f, i.base).elem, k).Size())
    ensures Plain(c + c1 + c2 + [Alu(MulD, T1, T1, T2)] + [Alu(AddD, T0, T0, T1)])
  {
  }

  lemma GepStepAt(f: Fun, base: Frame, fr: Frame, s: State, i: Ins, k: nat, m: Machine, c1: seq<Asm>, c2: seq<Asm>)
    requires i.Gep? && TypeOf(f, i.base).Ptr? && k < |i.indices| && Suits(f, base, fr)
    requires AddedUp(f, fr, s, m, i, k) && Eval(s, i.indices[k]).Some?
    requires LoadsOperand(f, base, c1, i.indices[k], T1)
    requires LoadsImm(c2, T2, StepType(TypeOf(f, i.base).elem, k).Size())
    ensures AddedUp(f, fr, s, Exec1(Alu(AddD, T0, T0, T1), Exec1(Alu(MulD, T1, T1, T2), Exec(c2, Exec(c1, m)))), i, k + 1)
  {
    hide Suits, Related, LayoutOf, Exec, StepType, LoadsOperand, Wrap64;
    var x, n := Eval(s, i.indices[k]).value, StepType(TypeOf(f, i.base).elem, k).Size();
    OneOperand(f, base, fr, s, m, c1, i.indices[k], T1);
    var m1 := Exec(c1, m);
    var m2 := Exec(c2, m1);
    assert m2 == SetReg(m1, T2, n);
    SetKeeps(f, fr, s, m1, T2, n);
    var m3 := Exec1(Alu(MulD, T1, T1, T2), m2);
    SetKeeps(f, fr, s, m2, T1, Wrap64(x * n));
    SetKeeps(f, fr, s, m3, T0, Wrap64(m3.regs[T0] + m3.regs[T1]));
    Wrap64Add(Eval(s, i.base).value + Partial(s, TypeOf(f, i.base).elem, i.indices, k), x * n);
  }
}
