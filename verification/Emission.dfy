/** What pieces of emitted code achieve, from immediates up to whole IR instructions. */
module Emission {
  import opened Basics
  import opened LoongArch
  import opened Assembly
  import opened StackIr
  import opened Frames

  /** After the code, `reg` holds `x`; only it and the scratch register have changed. */
  ghost predicate Loads(code: seq<Asm>, m: Machine, reg: Reg, x: int) {
    var m' := Exec(code, m);
    && m'.regs[reg] == x && m'.mem == m.mem
    && forall r: Reg :: r != reg && r != T8 ==> m'.regs[r] == m.regs[r]
  }

  ghost predicate LoadsImm(code: seq<Asm>, reg: Reg, x: int) {
    Plain(code) && forall m: Machine {:trigger Exec(code, m)} :: Exec(code, m) == SetReg(m, reg, x)
  }

  /** After the code, `n` bytes at `a` hold the low bytes of `x`; of the registers only the scratch one has changed. */
  ghost predicate Stores(code: seq<Asm>, m: Machine, a: int, n: nat, x: int)
    requires n > 0
  {
    var m' := Exec(code, m);
    && m'.mem == Write(m.mem, a, n, x)
    && forall r: Reg :: r != T8 ==> m'.regs[r] == m.regs[r]
  }

  // ----- immediates -----

  /** lu12i.w sets the upper bits, ori the lower twelve: any 32-bit number. */
  lemma LargeInt32(val: int, reg: Reg, m: Machine)
    requires Is32(val) && reg != ZERO
    ensures Exec([Lu12iW(reg, val / 0x1000), Ori(reg, reg, val % 0x1000)], m) == SetReg(m, reg, val)
    ensures Plain([Lu12iW(reg, val / 0x1000), Ori(reg, reg, val % 0x1000)])
  {
    hide OrBits, Power2;
    Power2At12();
    OrWithZero(val % 0x1000, 12);
    ExecOne(Lu12iW(reg, val / 0x1000), m);
    ExecSnoc([Lu12iW(reg, val / 0x1000)], Ori(reg, reg, val % 0x1000), m);
    assert [Lu12iW(reg, val / 0x1000)] + [Ori(reg, reg, val % 0x1000)] ==
           [Lu12iW(reg, val / 0x1000), Ori(reg, reg, val % 0x1000)];
    assert val / 0x1000 * 0x1000 % 0x1000 == 0;
  }

  lemma Power2At12()
    ensures Power2(12) == 0x1000
  {
    assert Power2(6) == 64;
  }

  /** The upper half of a 64-bit number, cut into its low twenty and high twelve bits. */
  lemma UpperPieces(val: int)
    requires Is64(val)
    ensures var high, low := val / TWO_32, Wrap32(val % TWO_32);
            var low20, high12 := Wrap32(high * 0x1000) / 0x1000, high / 0x10_0000;
            && Is32(high) && -0x8_0000 <= low20 < 0x8_0000 && IsImm12(high12)
            && high12 * TWO_52 + (low20 * TWO_32 + low % TWO_32) % TWO_52 == val
  {
    var high, low := val / TWO_32, Wrap32(val % TWO_32);
    assert low % TWO_32 == val % TWO_32;
    var low20 := Wrap32(high * 0x1000) / 0x1000;
    LowTwenty(high);
    var k :| high == k * 0x10_0000 + high % 0x10_0000 && k == high / 0x10_0000;
    Splice(high % 0x10_0000, low20, val % TWO_32);
  }

  /** Shifting left and right by twelve sign-extends the low twenty bits. */
  lemma LowTwenty(high: int)
    requires Is32(high)
    ensures var low20 := Wrap32(high * 0x1000) / 0x1000;
            && -0x8_0000 <= low20 < 0x8_0000
            && (low20 == high % 0x10_0000 || low20 == high % 0x10_0000 - 0x10_0000)
  {
    var q, r := high / 0x10_0000, high % 0x10_0000;
    assert high * 0x1000 == q * TWO_32 + r * 0x1000;
    assert high * 0x1000 % TWO_32 == r * 0x1000;
  }

  lemma Splice(r: int, low20: int, low: int)
    requires 0 <= r < 0x10_0000 && (low20 == r || low20 == r - 0x10_0000) && 0 <= low < TWO_32
    ensures (low20 * TWO_32 + low) % TWO_52 == r * TWO_32 + low
  {
    if low20 != r {
      assert low20 * TWO_32 + low == r * TWO_32 + low - TWO_52;
    }
  }

  /** lu32i.d and lu52i.d put the upper half on top: any 64-bit number. */
  lemma LargeInt64(val: int, reg: Reg, code: seq<Asm>, m: Machine)
    requires Is64(val) && reg != ZERO && LoadsImm(code, reg, Wrap32(val % TWO_32))
    ensures var high := val / TWO_32;
            var all := code + [Lu32iD(reg, Wrap32(high * 0x1000) / 0x1000)] + [Lu52iD(reg, reg, high / 0x10_0000)];
            Exec(all, m) == SetReg(m, reg, val) && Plain(all)
  {
    UpperPieces(val);
    var high, low := val / TWO_32, Wrap32(val % TWO_32);
    var low20, high12 := Wrap32(high * 0x1000) / 0x1000, high / 0x10_0000;
    ExecSnoc(code, Lu32iD(reg, low20), m);
    ExecSnoc(code + [Lu32iD(reg, low20)], Lu52iD(reg, reg, high12), m);
    LastTwo(m, reg, low, low20, high12);
  }

  lemma LastTwo(m: Machine, reg: Reg, low: int, low20: int, high12: int)
    requires reg != ZERO
    ensures Exec1(Lu52iD(reg, reg, high12), Exec1(Lu32iD(reg, low20), SetReg(m, reg, low))) ==
            SetReg(m, reg, high12 * TWO_52 + (low20 * TWO_32 + low % TWO_32) % TWO_52)
  {
    var regs := m.regs[reg := low];
    assert regs[reg := low20 * TWO_32 + low % TWO_32] == m.regs[reg := low20 * TWO_32 + low % TWO_32];
  }

  // ----- stack slots -----

  /** Loads the slot at `off`. */
  ghost predicate LoadsSlot(code: seq<Asm>, off: int, n: nat, reg: Reg)
    requires n > 0
  {
    Plain(code) && forall m: Machine ::
      Is64(m.regs[FP] + off) ==> Loads(code, m, reg, Read(m.mem, m.regs[FP] + off, n))
  }

  /** Stores a register to the slot at `off`. */
  ghost predicate StoresSlot(code: seq<Asm>, off: int, n: nat, reg: Reg)
    requires n > 0
  {
    Plain(code) && forall m: Machine ::
      Is64(m.regs[FP] + off) ==> Stores(code, m, m.regs[FP] + off, n, m.regs[reg])
  }

  lemma LoadNear(off: int, n: nat, reg: Reg)
    requires n in {1, 4, 8} && IsImm12(off) && reg != ZERO
    ensures LoadsSlot([Ld(n, reg, FP, off)], off, n, reg)
  {
    forall m: Machine | Is64(m.regs[FP] + off)
      ensures Loads([Ld(n, reg, FP, off)], m, reg, Read(m.mem, m.regs[FP] + off, n))
    {
      ExecOne(Ld(n, reg, FP, off), m);
    }
  }

  lemma StoreNear(off: int, n: nat, reg: Reg)
    requires n in {1, 4, 8} && IsImm12(off) && reg != ZERO
    ensures StoresSlot([St(n, reg, FP, off)], off, n, reg)
  {
    forall m: Machine | Is64(m.regs[FP] + off)
      ensures Stores([St(n, reg, FP, off)], m, m.regs[FP] + off, n, m.regs[reg])
    {
      ExecOne(St(n, reg, FP, off), m);
    }
  }

  /** The address of a far slot, in the scratch register. */
  lemma FarAddress(code: seq<Asm>, off: int, reg: Reg, m: Machine)
    requires LoadsImm(code, reg, off) && Is64(m.regs[FP] + off) && reg != ZERO && reg != FP
    ensures Exec(code + [Alu(AddD, reg, FP, reg)], m) == SetReg(m, reg, m.regs[FP] + off)
  {
    hide Exec, Plain, Read, Write, OrBits, Xor64, Power2, Quotient, Wrap32;
    ExecSnoc(code, Alu(AddD, reg, FP, reg), m);
    assert Exec(code, m) == SetReg(m, reg, off);
    assert m.regs[reg := off][reg := m.regs[FP] + off] == m.regs[reg := m.regs[FP] + off];
  }

  lemma LoadFar(code: seq<Asm>, off: int, n: nat, reg: Reg)
    requires n in {1, 4, 8} && reg != ZERO && LoadsImm(code, T8, off)
    ensures LoadsSlot(code + [Alu(AddD, T8, FP, T8)] + [Ld(n, reg, T8, 0)], off, n, reg)
  {
    hide Exec, Read, Write, OrBits, Power2, Quotient, Wrap32;
    forall m: Machine | Is64(m.regs[FP] + off)
      ensures Loads(code + [Alu(AddD, T8, FP, T8)] + [Ld(n, reg, T8, 0)], m, reg, Read(m.mem, m.regs[FP] + off, n))
    {
      FarAddress(code, off, T8, m);
      ExecSnoc(code + [Alu(AddD, T8, FP, T8)], Ld(n, reg, T8, 0), m);
    }
  }

  lemma StoreFar(code: seq<Asm>, off: int, n: nat, reg: Reg)
    requires n in {1, 4, 8} && reg != T8 && reg != ZERO && LoadsImm(code, T8, off)
    ensures StoresSlot(code + [Alu(AddD, T8, FP, T8)] + [St(n, reg, T8, 0)], off, n, reg)
  {
    hide Exec, Read, Write, OrBits, Power2, Quotient, Wrap32;
    forall m: Machine | Is64(m.regs[FP] + off)
      ensures Stores(code + [Alu(AddD, T8, FP, T8)] + [St(n, reg, T8, 0)], m, m.regs[FP] + off, n, m.regs[reg])
    {
      FarAddress(code, off, T8, m);
      ExecSnoc(code + [Alu(AddD, T8, FP, T8)], St(n, reg, T8, 0), m);
    }
  }

  // ----- operands and results -----

  /** `fr` is the frame with these tables in some call. */
  ghost predicate Suits(f: Fun, base: Frame, fr: Frame) {
    SameTables(base, fr) && Addressable(fr) && LaidOut(f, fr)
  }

  ghost predicate LoadsOperand(f: Fun, base: Frame, code: seq<Asm>, o: Operand, reg: Reg) {
    Plain(code) && forall fr, s, m {:trigger Related(f, fr, s, m)} ::
      Suits(f, base, fr) && Related(f, fr, s, m) && Eval(s, o).Some? ==> Loads(code, m, reg, Eval(s, o).value)
  }

  ghost predicate StoresResult(f: Fun, base: Frame, code: seq<Asm>, id: Id, reg: Reg)
    requires id in f.types
  {
    Plain(code) && forall fr, s, m {:trigger Related(f, fr, s, m)} ::
      Suits(f, base, fr) && Related(f, fr, s, m) && f.types[id].Holds(m.regs[reg]) ==>
      Related(f, fr, s.(env := s.env[id := m.regs[reg]]), Exec(code, m)) && OnlyScratch(m, Exec(code, m))
  }

  ghost predicate OnlyScratch(m: Machine, m': Machine) {
    forall r: Reg :: r != T8 ==> m'.regs[r] == m.regs[r]
  }

  lemma ImmLoads(code: seq<Asm>, m: Machine, reg: Reg, x: int)
    requires LoadsImm(code, reg, x) && reg != ZERO
    ensures Loads(code, m, reg, x)
  {
  }

  lemma ConstOperand(f: Fun, base: Frame, code: seq<Asm>, o: Operand, reg: Reg)
    requires reg != ZERO && !o.Var? && LoadsImm(code, reg, if o.Undef? then 0 else o.c)
    ensures LoadsOperand(f, base, code, o, reg)
  {
    hide Related, Suits, Loads;
    forall fr, s, m | Suits(f, base, fr) && Related(f, fr, s, m) && Eval(s, o).Some?
      ensures Loads(code, m, reg, Eval(s, o).value)
    {
      ImmLoads(code, m, reg, Eval(s, o).value);
    }
  }

  /** Slots can be addressed. */
  lemma SlotAddress(f: Fun, base: Frame, fr: Frame, o: Owner)
    requires Suits(f, base, fr) && IsOwner(f, o)
    ensures Is64(fr.fp + Start(f, fr, o)) && Start(f, fr, o) == Start(f, base, o) && Is32(Start(f, fr, o))
    ensures Located(fr, o)
  {
    hide IsOwner;
    assert Inside(f, fr, o);
  }

  lemma VarOperand(f: Fun, base: Frame, code: seq<Asm>, id: Id, reg: Reg)
    requires id in f.types && f.types[id].Scalar()
    requires LoadsSlot(code, At(base.offsets, id), f.types[id].Size(), reg)
    ensures LoadsOperand(f, base, code, Var(id), reg)
  {
    hide Loads, IsOwner, LaidOut, LayoutOf, Read;
    forall fr, s, m | Suits(f, base, fr) && Related(f, fr, s, m) && Eval(s, Var(id)).Some?
      ensures Loads(code, m, reg, Eval(s, Var(id)).value)
    {
      assert SlotHolds(f, fr, m.mem, id, s.env[id]);
      SlotAddress(f, base, fr, Slot(id));
    }
  }

  lemma StoreResult(f: Fun, base: Frame, fr: Frame, s: State, m: Machine, code: seq<Asm>, id: Id, reg: Reg)
    requires id in f.types && f.types[id].Scalar() && IsOwner(f, Slot(id))
    requires StoresSlot(code, At(base.offsets, id), f.types[id].Size(), reg)
    requires Suits(f, base, fr) && Related(f, fr, s, m) && f.types[id].Holds(m.regs[reg])
    ensures Related(f, fr, s.(env := s.env[id := m.regs[reg]]), Exec(code, m)) && OnlyScratch(m, Exec(code, m))
  {
    hide IsOwner, LaidOut, Stands, Write, Read, Plain, Exec, Addressable, Ty.Holds, InFrame;
    FramePointer(fr, m);
    SlotAddress(f, base, fr, Slot(id));
    assert Stores(code, m, m.regs[FP] + At(base.offsets, id), f.types[id].Size(), m.regs[reg]);
    StoreSlot(f, fr, s, m.mem, id, m.regs[reg]);
    ScratchInFrame(fr, m, Exec(code, m));
  }

  lemma FramePointer(fr: Frame, m: Machine)
    requires InFrame(fr, m.regs)
    ensures m.regs[FP] == fr.fp
  {
  }

  lemma ScratchInFrame(fr: Frame, m: Machine, m': Machine)
    requires InFrame(fr, m.regs) && OnlyScratch(m, m')
    ensures InFrame(fr, m'.regs)
  {
  }

  lemma SlotResult(f: Fun, base: Frame, code: seq<Asm>, id: Id, reg: Reg)
    requires id in f.types && f.types[id].Scalar() && IsOwner(f, Slot(id))
    requires StoresSlot(code, At(base.offsets, id), f.types[id].Size(), reg)
    ensures StoresResult(f, base, code, id, reg)
  {
    hide IsOwner, LaidOut, Related, Suits;
    forall fr, s, m | Suits(f, base, fr) && Related(f, fr, s, m) && f.types[id].Holds(m.regs[reg])
      ensures Related(f, fr, s.(env := s.env[id := m.regs[reg]]), Exec(code, m)) && OnlyScratch(m, Exec(code, m))
    {
      StoreResult(f, base, fr, s, m, code, id, reg);
    }
  }

  /** Loading a register that does not belong to the caller keeps the relation to the IR state. */
  lemma LoadKeeps(f: Fun, fr: Frame, s: State, code: seq<Asm>, m: Machine, reg: Reg, x: int)
    requires Related(f, fr, s, m) && Loads(code, m, reg, x) && !Kept(reg) && reg != ZERO
    ensures Related(f, fr, s, Exec(code, m))
  {
    hide Stands;
  }

  lemma SetKeeps(f: Fun, fr: Frame, s: State, m: Machine, reg: Reg, x: int)
    requires Related(f, fr, s, m) && !Kept(reg)
    ensures Related(f, fr, s, SetReg(m, reg, x))
  {
    hide Stands;
  }

  /** One operand after the other. */
  lemma TwoOperands(f: Fun, base: Frame, fr: Frame, s: State, m: Machine, c0: seq<Asm>, l: Operand, c1: seq<Asm>,
                    r: Operand)
    requires Suits(f, base, fr) && Related(f, fr, s, m) && Eval(s, l).Some? && Eval(s, r).Some?
    requires LoadsOperand(f, base, c0, l, T0) && LoadsOperand(f, base, c1, r, T1)
    ensures var m' := Exec(c0 + c1, m);
            Related(f, fr, s, m') && m'.regs[T0] == Eval(s, l).value && m'.regs[T1] == Eval(s, r).value
  {
    hide Suits, Related;
    ExecConcat(c0, c1, m);
    var m1 := Exec(c0, m);
    assert Loads(c0, m, T0, Eval(s, l).value);
    LoadKeeps(f, fr, s, c0, m, T0, Eval(s, l).value);
    assert Loads(c1, m1, T1, Eval(s, r).value);
    LoadKeeps(f, fr, s, c1, m1, T1, Eval(s, r).value);
  }

  // ----- instructions -----

  /** The code does what the instruction does. */
  ghost predicate Implements(f: Fun, base: Frame, code: seq<Asm>, i: Ins) {
    Plain(code) && forall fr, s, m {:trigger Related(f, fr, s, m)} ::
      Suits(f, base, fr) && Related(f, fr, s, m) && ExecIns(f, LayoutOf(f, fr), i, s).Some? ==>
      Related(f, fr, ExecIns(f, LayoutOf(f, fr), i, s).value, Exec(code, m))
  }

  /** The code leaves the instruction's result in `reg`. */
  ghost predicate Computes(f: Fun, base: Frame, code: seq<Asm>, i: Ins, reg: Reg) {
    Plain(code) && forall fr, s, m {:trigger Related(f, fr, s, m)} ::
      Suits(f, base, fr) && Related(f, fr, s, m) && ExecIns(f, LayoutOf(f, fr), i, s).Some? ==>
      ComputesAt(f, fr, s, i, Exec(code, m), reg)
  }

  ghost predicate ComputesAt(f: Fun, fr: Frame, s: State, i: Ins, m: Machine, reg: Reg) {
    && Related(f, fr, s, m) && !i.Store? && i.id in f.types && f.types[i.id].Holds(m.regs[reg])
    && ExecIns(f, LayoutOf(f, fr), i, s) == Some(s.(env := s.env[i.id := m.regs[reg]]))
  }

  lemma PlainConcat(a: seq<Asm>, b: seq<Asm>)
    requires Plain(a) && Plain(b)
    ensures Plain(a + b)
  {
  }

  lemma ComputeAndStore(f: Fun, base: Frame, code: seq<Asm>, store: seq<Asm>, i: Ins, reg: Reg)
    requires !i.Store? && i.id in f.types && Computes(f, base, code, i, reg) && StoresResult(f, base, store, i.id, reg)
    ensures Implements(f, base, code + store, i)
  {
    hide Suits, Related, ExecIns, LayoutOf;
    PlainConcat(code, store);
    forall fr, s, m | Suits(f, base, fr) && Related(f, fr, s, m) && ExecIns(f, LayoutOf(f, fr), i, s).Some?
      ensures Related(f, fr, ExecIns(f, LayoutOf(f, fr), i, s).value, Exec(code + store, m))
    {
      ExecConcat(code, store, m);
      assert ComputesAt(f, fr, s, i, Exec(code, m), reg);
    }
  }

  function AluOf(op: BinOp): AluOp {
    match op
    case Add => AddW
    case Sub => SubW
    case Mul => MulW
    case SDiv => DivW
  }

  /** The machine's division is the IR's. */
  lemma QuotientTruncates(x: int, y: int)
    requires Is32(x) && Is32(y) && y != 0 && !(x == -TWO_31 && y == -1)
    ensures Wrap32(Quotient(x, y)) == Truncated(x, y) && Is32(Truncated(x, y))
  {
    QuotientBound(Abs(x), Abs(y));
    if x < 0 {
      assert Abs(x) == -x;
    } else {
      assert Abs(x) == x;
    }
  }

  lemma MulMono(q: nat, b: nat, c: nat)
    requires b >= c
    ensures q * b >= q * c
  {
    assert q * b == q * c + q * (b - c);
  }

  lemma QuotientBound(a: nat, b: nat)
    requires b > 0
    ensures 0 <= a / b <= a && (b > 1 ==> 2 * (a / b) <= a)
  {
    MulMono(a / b, b, 1);
    if b > 1 {
      MulMono(a / b, b, 2);
    }
  }

  lemma BinaryComputes(f: Fun, base: Frame, i: Ins, c0: seq<Asm>, c1: seq<Asm>)
    requires i.Binary? && InsTyped(f, i) && LoadsOperand(f, base, c0, i.l, T0) && LoadsOperand(f, base, c1, i.r, T1)
    ensures Computes(f, base, c0 + c1 + [Alu(AluOf(i.op), T2, T0, T1)], i, T2)
  {
    hide Suits, Related, LayoutOf, LoadsOperand;
    var alu := Alu(AluOf(i.op), T2, T0, T1);
    OperandsPlain(f, base, c0, i.l, T0, c1, i.r, T1);
    forall fr, s, m | Suits(f, base, fr) && Related(f, fr, s, m) && ExecIns(f, LayoutOf(f, fr), i, s).Some?
      ensures ComputesAt(f, fr, s, i, Exec(c0 + c1 + [alu], m), T2)
    {
      TwoOperands(f, base, fr, s, m, c0, i.l, c1, i.r);
      ExecSnoc(c0 + c1, alu, m);
      var x, y := Eval(s, i.l).value, Eval(s, i.r).value;
      OperandHolds(f, fr, s, m, i.l, I32);
      OperandHolds(f, fr, s, m, i.r, I32);
      if i.op == SDiv {
        QuotientTruncates(x, y);
      }
      SetKeeps(f, fr, s, Exec(c0 + c1, m), T2, AluResult(AluOf(i.op), x, y));
    }
  }

  lemma OperandsPlain(f: Fun, base: Frame, c0: seq<Asm>, l: Operand, r0: Reg, c1: seq<Asm>, r: Operand, r1: Reg)
    requires LoadsOperand(f, base, c0, l, r0) && LoadsOperand(f, base, c1, r, r1)
    ensures Plain(c0 + c1)
  {
  }

  /** Operands have values of their types. */
  lemma OperandHolds(f: Fun, fr: Frame, s: State, m: Machine, o: Operand, ty: Ty)
    requires Related(f, fr, s, m) && HasType(f, o, ty) && Eval(s, o).Some?
    ensures ty.Holds(Eval(s, o).value)
  {
    hide LayoutOf, IsOwner, Read;
    if o.Var? {
      assert SlotHolds(f, fr, m.mem, o.id, s.env[o.id]);
    }
  }
}
