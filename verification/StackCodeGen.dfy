/** The stack code generator: every value lives in a slot of the frame. */
module StackCodeGen {
  import opened Graphs
  import opened Basics
  import opened LoongArch
  import opened Assembly
  import opened StackIr
  import opened Frames
  import opened FrameAllocation
  import opened Emission
  import opened Selection
  import opened PhiCopies
  import opened Simulation
  import opened FunctionCalls

  class CodeGen {
    const f: Fun
    var output: seq<Asm>
    var offsetMap: map<Id, int>
    var phiTempOffsetMap: map<Id, int>
    var frameSize: nat
    var nextPhiEdgeId: nat

    constructor (f: Fun)
      ensures this.f == f && output == [] && offsetMap == map[] && phiTempOffsetMap == map[] && nextPhiEdgeId == 0
    {
      this.f := f;
      output, offsetMap, phiTempOffsetMap, frameSize, nextPhiEdgeId := [], map[], map[], 0, 0;
    }

    /** The frame tables; the frame pointer is left open. */
    ghost function Base(): Frame
      reads this`offsetMap, this`phiTempOffsetMap, this`frameSize
    {
      Tables(offsetMap, phiTempOffsetMap, frameSize)
    }

    // ----- frame layout -----

    ghost predicate Allocated(off: nat, seen: set<Site>, done: set<Owner>)
      reads this`offsetMap, this`phiTempOffsetMap
    {
      && PROLOGUE_OFFSET_BASE <= off && Known(f, seen, done)
      && Packed(f, Tables(offsetMap, phiTempOffsetMap, off), done)
    }

    /** Gives every argument, every instruction result, every phi's temporary and every allocation its place. */
    method Allocate()
      requires WellTyped(f) && UniqueIds(f) && FrameSize(f) < TWO_31
      modifies this`offsetMap, this`phiTempOffsetMap, this`frameSize
      ensures LaidOut(f, Base()) && frameSize == FrameSize(f)
    {
      hide Packed, Known, UniqueIds, LaidOut, WellTyped, WithSlot, AlignWord, EndOfBody, EndOfPhis, TypeAt;
      offsetMap, phiTempOffsetMap := map[], map[];
      var offset: nat := PROLOGUE_OFFSET_BASE;
      ghost var seen: set<Site>, done: set<Owner> := {}, {};
      NothingPacked(f);
      for i := 0 to |f.args|
        invariant offset == EndOfArgs(f, i) && Allocated(offset, seen, done)
        invariant forall x :: x in seen ==> x.ArgSite? && x.i < i
        invariant forall j :: 0 <= j < i ==> Slot(f.args[j]) in done
      {
        ArgScalar(f, i);
        ArgsGrow(f, i + 1, |f.args|);
        BlocksGrow(f, 0, |f.blocks|);
        assert HasId(f, ArgSite(i), f.args[i]);
        offset, seen, done := AllocateSlot(f.args[i], ArgSite(i), offset, seen, done);
      }
      for b := 0 to |f.blocks|
        invariant offset == EndOfBlocks(f, b) && Allocated(offset, seen, done)
        invariant forall x :: x in seen ==> x.ArgSite? || x.b < b
        invariant forall j :: 0 <= j < |f.args| ==> Slot(f.args[j]) in done
        invariant forall c: Block :: c < b ==> BlockPlaced(f, done, c)
      {
        ghost var before := done;
        BlocksGrow(f, b + 1, |f.blocks|);
        offset, seen, done := AllocateBlock(b, offset, seen, done);
        StillPlaced(f, before, done, b);
      }
      AlignWordRounds(offset, PROLOGUE_ALIGN);
      frameSize := AlignWord(offset, PROLOGUE_ALIGN);
      AllPlaced(f, done);
      PackRounded(f, Tables(offsetMap, phiTempOffsetMap, offset), done, frameSize);
    }

    method AllocateSlot(id: Id, ghost site: Site, offset: nat, ghost seen: set<Site>, ghost done: set<Owner>)
        returns (offset': nat, ghost seen': set<Site>, ghost done': set<Owner>)
      requires UniqueIds(f) && Allocated(offset, seen, done) && site !in seen && HasId(f, site, id)
      requires TypeAt(f, id).Scalar() && WithSlot(f, offset, id) < TWO_31
      modifies this`offsetMap
      ensures offset' == WithSlot(f, offset, id) && seen' == seen + {site} && done' == done + {Slot(id)}
      ensures Allocated(offset', seen', done') && id in offsetMap && offsetMap[id] == 0 - offset'
    {
      hide Packed, UniqueIds, AlignWord, Known, HasId;
      FreshId(f, seen, done, site, id);
      PackSlot(f, Tables(offsetMap, phiTempOffsetMap, offset), done, id);
      var size := TypeAt(f, id).Size();
      AlignWordRounds(offset + size, size);
      offset' := AlignWord(offset + size, size);
      offsetMap := offsetMap[id := 0 - offset'];
      seen', done' := seen + {site}, done + {Slot(id)};
      KnownMore(f, seen, done, site, Slot(id));
    }

    method AllocateBlock(b: Block, offset: nat, ghost seen: set<Site>, ghost done: set<Owner>)
        returns (offset': nat, ghost seen': set<Site>, ghost done': set<Owner>)
      requires WellTyped(f) && UniqueIds(f) && b < |f.blocks| && Allocated(offset, seen, done)
      requires forall x :: x in seen ==> x.ArgSite? || x.b < b
      requires var blk := f.blocks[b];
               EndOfBody(f, EndOfPhis(f, offset, blk.phis, |blk.phis|), blk.body, |blk.body|) < TWO_31
      modifies this`offsetMap, this`phiTempOffsetMap
      ensures var blk := f.blocks[b];
              offset' == EndOfBody(f, EndOfPhis(f, offset, blk.phis, |blk.phis|), blk.body, |blk.body|)
      ensures Allocated(offset', seen', done') && BlockPlaced(f, done', b) && done <= done'
      ensures forall x :: x in seen' ==> x.ArgSite? || x.b <= b
    {
      hide Packed, Known, UniqueIds, WellTyped, HasId, TypeAt, AreaSize;
      var blk := f.blocks[b];
      BodyGrows(f, EndOfPhis(f, offset, blk.phis, |blk.phis|), blk.body, 0, |blk.body|);
      offset', seen', done' := AllocatePhis(b, offset, seen, done);
      ghost var base := offset';
      for i := 0 to |blk.body|
        invariant offset' == EndOfBody(f, base, blk.body, i) && Allocated(offset', seen', done') && done <= done'
        invariant forall x :: x in seen' ==> x.ArgSite? || x.b < b || (x.b == b && (x.PhiSite? || x.i < i))
        invariant forall j :: 0 <= j < |blk.phis| ==> Slot(blk.phis[j].id) in done' && Temp(blk.phis[j].id) in done'
        invariant forall j :: 0 <= j < i ==> InsPlaced(blk.body[j], done')
      {
        BodyGrows(f, base, blk.body, i + 1, |blk.body|);
        offset', seen', done' := AllocateIns(b, i, offset', seen', done');
      }
    }

    method AllocatePhis(b: Block, offset: nat, ghost seen: set<Site>, ghost done: set<Owner>)
        returns (offset': nat, ghost seen': set<Site>, ghost done': set<Owner>)
      requires WellTyped(f) && UniqueIds(f) && b < |f.blocks| && Allocated(offset, seen, done)
      requires forall x :: x in seen ==> x.ArgSite? || x.b < b
      requires EndOfPhis(f, offset, f.blocks[b].phis, |f.blocks[b].phis|) < TWO_31
      modifies this`offsetMap, this`phiTempOffsetMap
      ensures offset' == EndOfPhis(f, offset, f.blocks[b].phis, |f.blocks[b].phis|)
      ensures Allocated(offset', seen', done') && done <= done'
      ensures forall x :: x in seen' ==> x.ArgSite? || x.b < b || (x.b == b && x.PhiSite?)
      ensures forall j :: 0 <= j < |f.blocks[b].phis| ==>
                Slot(f.blocks[b].phis[j].id) in done' && Temp(f.blocks[b].phis[j].id) in done'
    {
      hide Packed, Known, UniqueIds, WellTyped, HasId, TypeAt, WithSlot;
      var phis := f.blocks[b].phis;
      offset', seen', done' := offset, seen, done;
      for i := 0 to |phis|
        invariant offset' == EndOfPhis(f, offset, phis, i) && Allocated(offset', seen', done') && done <= done'
        invariant forall x :: x in seen' ==> x.ArgSite? || x.b < b || (x.b == b && x.PhiSite? && x.i < i)
        invariant forall j :: 0 <= j < i ==> Slot(phis[j].id) in done' && Temp(phis[j].id) in done'
      {
        PhisGrow(f, offset, phis, i + 1, |phis|);
        offset', seen', done' := AllocatePhi(b, i, offset', seen', done');
      }
    }

    /** A phi gets two slots: its own, and one to save its next value in. */
    method AllocatePhi(b: Block, i: nat, offset: nat, ghost seen: set<Site>, ghost done: set<Owner>)
        returns (offset': nat, ghost seen': set<Site>, ghost done': set<Owner>)
      requires WellTyped(f) && UniqueIds(f) && b < |f.blocks| && i < |f.blocks[b].phis| && Allocated(offset, seen, done)
      requires PhiSite(b, i) !in seen
      requires var id := f.blocks[b].phis[i].id; WithSlot(f, WithSlot(f, offset, id), id) < TWO_31
      modifies this`offsetMap, this`phiTempOffsetMap
      ensures offset' == var id := f.blocks[b].phis[i].id; WithSlot(f, WithSlot(f, offset, id), id)
      ensures Allocated(offset', seen', done') && done <= done' && seen' == seen + {PhiSite(b, i)}
      ensures Slot(f.blocks[b].phis[i].id) in done' && Temp(f.blocks[b].phis[i].id) in done'
    {
      hide Packed, Known, UniqueIds, WellTyped, AlignWord;
      var id := f.blocks[b].phis[i].id;
      PhiScalar(f, b, i);
      assert HasId(f, PhiSite(b, i), id);
      FreshId(f, seen, done, PhiSite(b, i), id);
      offset', seen', done' := AllocateSlot(id, PhiSite(b, i), offset, seen, done);
      PackTemp(f, Tables(offsetMap, phiTempOffsetMap, offset'), done', id);
      var size := TypeAt(f, id).Size();
      AlignWordRounds(offset' + size, size);
      offset' := AlignWord(offset' + size, size);
      phiTempOffsetMap := phiTempOffsetMap[id := 0 - offset'];
      KnownMore(f, seen', done', PhiSite(b, i), Temp(id));
      done' := done' + {Temp(id)};
    }

    method AllocateIns(b: Block, i: nat, offset: nat, ghost seen: set<Site>, ghost done: set<Owner>)
        returns (offset': nat, ghost seen': set<Site>, ghost done': set<Owner>)
      requires WellTyped(f) && UniqueIds(f) && b < |f.blocks| && i < |f.blocks[b].body| && Allocated(offset, seen, done)
      requires InsSite(b, i) !in seen && EndOfIns(f, offset, f.blocks[b].body[i]) < TWO_31
      modifies this`offsetMap
      ensures offset' == EndOfIns(f, offset, f.blocks[b].body[i]) && Allocated(offset', seen', done') && done <= done'
      ensures seen <= seen' <= seen + {InsSite(b, i)} && InsPlaced(f.blocks[b].body[i], done')
    {
      hide Packed, Known, UniqueIds, WellTyped;
      var instr := f.blocks[b].body[i];
      offset', seen', done' := offset, seen, done;
      if !instr.Store? {
        InsScalar(f, b, i);
        assert HasId(f, InsSite(b, i), instr.id);
        FreshId(f, seen', done', InsSite(b, i), instr.id);
        offset', seen', done' := AllocateSlot(instr.id, InsSite(b, i), offset', seen', done');
      }
      if instr.Alloca? {
        AreaOf(f, b, i);
        PackArea(f, Tables(offsetMap, phiTempOffsetMap, offset'), done', instr.id);
        offset' := offset' + instr.elem.Size();
        KnownMore(f, seen', done', InsSite(b, i), Area(instr.id));
        done' := done' + {Area(instr.id)};
      }
    }

    // ----- immediates and slots -----

    method AppendInst(i: Asm)
      modifies this`output
      ensures output == old(output) + [i]
    {
      output := output + [i];
    }

    method LoadInt32(val: int, reg: Reg) returns (ghost code: seq<Asm>)
      requires Is32(val) && reg != ZERO
      modifies this`output
      ensures output == old(output) + code && LoadsImm(code, reg, val)
    {
      hide LoadsImm;
      if IsImm12(val) {
        code := [AddiW(reg, ZERO, val)];
        AppendInst(AddiW(reg, ZERO, val));
        SmallImm(val, reg);
      } else {
        code := LoadLargeInt32(val, reg);
      }
    }

    method LoadLargeInt32(val: int, reg: Reg) returns (ghost code: seq<Asm>)
      requires Is32(val) && reg != ZERO
      modifies this`output
      ensures output == old(output) + code && LoadsImm(code, reg, val)
    {
      var high20 := val / 0x1000;
      var low12 := val % 0x1000;
      code := [Lu12iW(reg, high20), Ori(reg, reg, low12)];
      forall m: Machine
        ensures Exec(code, m) == SetReg(m, reg, val) && Plain(code)
      {
        LargeInt32(val, reg, m);
      }
      AppendInst(Lu12iW(reg, high20));
      AppendInst(Ori(reg, reg, low12));
    }

    method LoadLargeInt64(val: int, reg: Reg) returns (ghost code: seq<Asm>)
      requires Is64(val) && reg != ZERO
      modifies this`output
      ensures output == old(output) + code && LoadsImm(code, reg, val)
    {
      hide LoadsImm;
      var low32 := Wrap32(val % TWO_32);
      ghost var c := LoadLargeInt32(low32, reg);
      var high32 := val / TWO_32;
      var low20 := Wrap32(high32 * 0x1000) / 0x1000;
      var high12 := high32 / 0x10_0000;
      AppendInst(Lu32iD(reg, low20));
      AppendInst(Lu52iD(reg, reg, high12));
      code := c + [Lu32iD(reg, low20)] + [Lu52iD(reg, reg, high12)];
      LargeInt64All(val, reg, c);
    }

    method LoadFromStack(ty: Ty, offset: int, reg: Reg) returns (ghost code: seq<Asm>)
      requires ty.Scalar() && Is32(offset) && reg != ZERO
      modifies this`output
      ensures output == old(output) + code && LoadsSlot(code, offset, ty.Size(), reg)
    {
      hide LoadsImm, LoadsSlot;
      var n := AccessBytes(ty);
      if IsImm12(offset) {
        AppendInst(Ld(n, reg, FP, offset));
        code := [Ld(n, reg, FP, offset)];
        LoadNear(offset, n, reg);
        return;
      }
      ghost var c := LoadLargeInt64(offset, T8);
      AppendInst(Alu(AddD, T8, FP, T8));
      AppendInst(Ld(n, reg, T8, 0));
      code := c + [Alu(AddD, T8, FP, T8)] + [Ld(n, reg, T8, 0)];
      LoadFar(c, offset, n, reg);
    }

    method StoreToStack(ty: Ty, offset: int, reg: Reg) returns (ghost code: seq<Asm>)
      requires ty.Scalar() && Is32(offset) && reg != T8 && reg != ZERO
      modifies this`output
      ensures output == old(output) + code && StoresSlot(code, offset, ty.Size(), reg)
    {
      hide LoadsImm, StoresSlot;
      var n := AccessBytes(ty);
      if IsImm12(offset) {
        AppendInst(St(n, reg, FP, offset));
        code := [St(n, reg, FP, offset)];
        StoreNear(offset, n, reg);
        return;
      }
      ghost var c := LoadLargeInt64(offset, T8);
      AppendInst(Alu(AddD, T8, FP, T8));
      AppendInst(St(n, reg, T8, 0));
      code := c + [Alu(AddD, T8, FP, T8)] + [St(n, reg, T8, 0)];
      StoreFar(c, offset, n, reg);
    }

    /** What allocation has established, as far as generating code needs it. */
    ghost predicate Ready()
      reads this`offsetMap, this`phiTempOffsetMap, this`frameSize
    {
      WellTyped(f) && LaidOut(f, Base()) && frameSize < TWO_31
    }

    lemma OffsetKnown(o: Owner)
      requires Ready() && IsOwner(f, o)
      ensures Located(Base(), o) && Is32(Start(f, Base(), o))
    {
      hide IsOwner;
      assert Inside(f, Base(), o);
    }

    method LoadToGreg(o: Operand, reg: Reg) returns (ghost code: seq<Asm>)
      requires Ready() && Placeable(f, o) && reg != ZERO
      modifies this`output
      ensures output == old(output) + code && LoadsOperand(f, Base(), code, o, reg)
    {
      hide LoadsImm, LoadsSlot, LoadsOperand, IsOwner, LaidOut, WellTyped;
      match o {
        case Undef(_) =>
          code := LoadInt32(0, reg);
          ConstOperand(f, Base(), code, o, reg);
        case ConstInt(c, _) =>
          code := LoadInt32(c, reg);
          ConstOperand(f, Base(), code, o, reg);
        case Var(id) =>
          OffsetKnown(Slot(id));
          code := LoadFromStack(f.types[id], offsetMap[id], reg);
          VarOperand(f, Base(), code, id, reg);
      }
    }

    method StoreFromGreg(id: Id, reg: Reg) returns (ghost code: seq<Asm>)
      requires Ready() && id in f.types && f.types[id].Scalar() && IsOwner(f, Slot(id)) && reg != T8 && reg != ZERO
      modifies this`output
      ensures output == old(output) + code && StoresResult(f, Base(), code, id, reg)
    {
      hide StoresSlot, IsOwner, LaidOut, WellTyped, StoresResult;
      OffsetKnown(Slot(id));
      code := StoreToStack(f.types[id], offsetMap[id], reg);
      SlotResult(f, Base(), code, id, reg);
    }

    // ----- entry and exit -----

    /** Saves what the caller needs back, sets up the frame and stores the arguments to their slots. */
    method GenPrologue() returns (ghost code: seq<Asm>)
      requires Ready() && |f.args| <= ARG_REGS
      modifies this`output
      ensures output == old(output) + code && Enters(f, Base(), code, |f.args|)
    {
      hide LoadsImm, StoresResult, MakesRoom, LaidOut, WellTyped, Enters;
      AppendInst(St(8, RA, SP, -8));
      AppendInst(St(8, FP, SP, -16));
      AppendInst(AddiD(FP, SP, 0));
      ghost var room: seq<Asm>;
      if IsImm12(0 - frameSize) {
        AppendInst(AddiD(SP, SP, 0 - frameSize));
        room := [AddiD(SP, SP, 0 - frameSize)];
        RoomNear(frameSize);
      } else {
        ghost var c := LoadLargeInt64(frameSize, T0);
        AppendInst(Alu(SubD, SP, SP, T0));
        room := c + [Alu(SubD, SP, SP, T0)];
        RoomFar(c, frameSize);
      }
      code := SAVING + room;
      FrameEntered(f, Base(), room);
      for i := 0 to |f.args|
        invariant output == old(output) + code && Enters(f, Base(), code, i)
        invariant offsetMap == old(offsetMap) && phiTempOffsetMap == old(phiTempOffsetMap)
        invariant frameSize == old(frameSize)
      {
        ArgTyped(f, i);
        ghost var c := StoreFromGreg(f.args[i], Arg(i));
        EntersMore(f, Base(), code, i, c);
        code := code + c;
      }
    }

    /** The label of the exit, and the way back to the caller. */
    method GenEpilogue()
      modifies this`output
      ensures output == old(output) + ([Mark(ExitLabel)] + LEAVING + [JumpReg(RA)])
    {
      AppendInst(Mark(ExitLabel));
      AppendInst(AddiD(SP, FP, 0));
      AppendInst(Ld(8, RA, SP, -8));
      AppendInst(Ld(8, FP, SP, -16));
      AppendInst(JumpReg(RA));
    }

    // ----- instructions -----

    method GenBinary(i: Ins) returns (ghost code: seq<Asm>)
      requires Ready() && Selectable(f, i) && i.Binary?
      modifies this`output
      ensures output == old(output) + code && Implements(f, Base(), code, i)
    {
      hide LoadsOperand, StoresResult, Implements, Computes, IsOwner, LaidOut, WellTyped;
      ghost var c0 := LoadToGreg(i.l, T0);
      ghost var c1 := LoadToGreg(i.r, T1);
      match i.op {
        case Add => AppendInst(Alu(AddW, T2, T0, T1));
        case Sub => AppendInst(Alu(SubW, T2, T0, T1));
        case Mul => AppendInst(Alu(MulW, T2, T0, T1));
        case SDiv => AppendInst(Alu(DivW, T2, T0, T1));
      }
      ghost var c2 := StoreFromGreg(i.id, T2);
      code := c0 + c1 + [Alu(AluOf(i.op), T2, T0, T1)] + c2;
      BinaryComputes(f, Base(), i, c0, c1);
      ComputeAndStore(f, Base(), c0 + c1 + [Alu(AluOf(i.op), T2, T0, T1)], c2, i, T2);
    }

    method GenIcmp(i: Ins) returns (ghost code: seq<Asm>)
      requires Ready() && Selectable(f, i) && i.Icmp?
      modifies this`output
      ensures output == old(output) + code && Implements(f, Base(), code, i)
    {
      hide LoadsOperand, StoresResult, Implements, Computes, IsOwner, LaidOut, WellTyped;
      ghost var c0 := LoadToGreg(i.l, T0);
      ghost var c1 := LoadToGreg(i.r, T1);
      match i.cmp {
        case Eq =>
          AppendInst(Alu(Xor, T0, T0, T1));
          AppendInst(Sltui(T0, T0, 1));
        case Ne =>
          AppendInst(Alu(Xor, T0, T0, T1));
          AppendInst(Alu(Sltu, T0, ZERO, T0));
        case Lt => AppendInst(Alu(Slt, T0, T0, T1));
        case Gt => AppendInst(Alu(Slt, T0, T1, T0));
        case Le =>
          AppendInst(Alu(Slt, T0, T1, T0));
          AppendInst(Sltui(T0, T0, 1));
        case Ge =>
          AppendInst(Alu(Slt, T0, T0, T1));
          AppendInst(Sltui(T0, T0, 1));
      }
      ghost var c2 := StoreFromGreg(i.id, T0);
      code := c0 + c1 + CmpCode(i.cmp) + c2;
      IcmpComputes(f, Base(), i, c0, c1);
      ComputeAndStore(f, Base(), c0 + c1 + CmpCode(i.cmp), c2, i, T0);
    }

    method GenZext(i: Ins) returns (ghost code: seq<Asm>)
      requires Ready() && Selectable(f, i) && i.Zext?
      modifies this`output
      ensures output == old(output) + code && Implements(f, Base(), code, i)
    {
      hide LoadsOperand, StoresResult, Implements, Computes, IsOwner, LaidOut, WellTyped;
      ghost var c := LoadToGreg(i.v, T0);
      AppendInst(BstrpickW(T0, T0, 0, 0));
      ghost var c2 := StoreFromGreg(i.id, T0);
      code := c + [BstrpickW(T0, T0, 0, 0)] + c2;
      ZextComputes(f, Base(), i, c);
      ComputeAndStore(f, Base(), c + [BstrpickW(T0, T0, 0, 0)], c2, i, T0);
    }

    method GenLoad(i: Ins) returns (ghost code: seq<Asm>)
      requires Ready() && Selectable(f, i) && i.Load?
      modifies this`output
      ensures output == old(output) + code && Implements(f, Base(), code, i)
    {
      hide LoadsOperand, StoresResult, Implements, Computes, IsOwner, LaidOut, WellTyped;
      ghost var c := LoadToGreg(i.ptr, T0);
      AppendInst(Ld(AccessBytes(i.ty), T1, T0, 0));
      ghost var c2 := StoreFromGreg(i.id, T1);
      code := c + [Ld(AccessBytes(i.ty), T1, T0, 0)] + c2;
      LoadComputes(f, Base(), i, c);
      ComputeAndStore(f, Base(), c + [Ld(AccessBytes(i.ty), T1, T0, 0)], c2, i, T1);
    }

    method GenStore(i: Ins) returns (ghost code: seq<Asm>)
      requires Ready() && Selectable(f, i) && i.Store?
      modifies this`output
      ensures output == old(output) + code && Implements(f, Base(), code, i)
    {
      hide LoadsOperand, Implements, IsOwner, LaidOut, WellTyped;
      ghost var c0 := LoadToGreg(i.ptr, T0);
      ghost var c1 := LoadToGreg(i.val, T1);
      AppendInst(St(AccessBytes(TypeOf(f, i.val)), T1, T0, 0));
      code := c0 + c1 + [St(AccessBytes(TypeOf(f, i.val)), T1, T0, 0)];
      StoreImplements(f, Base(), i, c0, c1);
    }

    method GenAlloca(i: Ins) returns (ghost code: seq<Asm>)
      requires Ready() && Selectable(f, i) && i.Alloca?
      modifies this`output
      ensures output == old(output) + code && Implements(f, Base(), code, i)
    {
      hide LoadsImm, StoresResult, Implements, Computes, IsOwner, LaidOut, WellTyped, SetsAddress;
      OffsetKnown(Area(i.id));
      var offset := offsetMap[i.id] - i.elem.Size();
      ghost var c: seq<Asm>;
      if IsImm12(offset) {
        AppendInst(AddiD(T0, FP, offset));
        c := [AddiD(T0, FP, offset)];
        AddressNear(offset, T0);
      } else {
        ghost var c0 := LoadLargeInt64(offset, T0);
        AppendInst(Alu(AddD, T0, FP, T0));
        c := c0 + [Alu(AddD, T0, FP, T0)];
        AddressFar(c0, offset, T0);
      }
      ghost var c2 := StoreFromGreg(i.id, T0);
      code := c + c2;
      AllocaComputes(f, Base(), i, c);
      ComputeAndStore(f, Base(), c, c2, i, T0);
    }

    method GenGep(i: Ins) returns (ghost code: seq<Asm>)
      requires Ready() && Selectable(f, i) && i.Gep?
      modifies this`output
      ensures output == old(output) + code && Implements(f, Base(), code, i)
    {
      hide LoadsOperand, LoadsImm, StoresResult, Implements, Computes, IsOwner, LaidOut, WellTyped, AddsUp, IndexTypes;
      ghost var start := output;
      ghost var c := LoadToGreg(i.base, T0);
      GepStart(f, Base(), i, c);
      ghost var elem := TypeOf(f, i.base).elem;
      var indexedType := TypeOf(f, i.base).elem;
      for k := 0 to |i.indices|
        invariant output == start + c && AddsUp(f, Base(), c, i, k)
        invariant indexedType == if k == 0 then elem else StepType(elem, k - 1)
        invariant offsetMap == old(offsetMap) && phiTempOffsetMap == old(phiTempOffsetMap)
        invariant frameSize == old(frameSize)
      {
        IndexTyped(f, elem, i.indices, k);
        if k > 0 {
          indexedType := indexedType.elem;
        }
        ghost var c1 := LoadToGreg(i.indices[k], T1);
        ghost var c2 := LoadInt32(indexedType.Size(), T2);
        AppendInst(Alu(MulD, T1, T1, T2));
        AppendInst(Alu(AddD, T0, T0, T1));
        GepStep(f, Base(), i, k, c, c1, c2);
        c := c + c1 + c2 + [Alu(MulD, T1, T1, T2)] + [Alu(AddD, T0, T0, T1)];
      }
      ghost var c3 := StoreFromGreg(i.id, T0);
      code := c + c3;
      GepDone(f, Base(), i, c);
      ComputeAndStore(f, Base(), c, c3, i, T0);
    }

    /** One instruction of a block. */
    method GenIns(i: Ins) returns (ghost code: seq<Asm>)
      requires Ready() && Selectable(f, i)
      modifies this`output
      ensures output == old(output) + code && Implements(f, Base(), code, i)
    {
      hide Implements, IsOwner, LaidOut, WellTyped;
      match i {
        case Binary(_, _, _, _) => code := GenBinary(i);
        case Icmp(_, _, _, _) => code := GenIcmp(i);
        case Zext(_, _) => code := GenZext(i);
        case Load(_, _, _) => code := GenLoad(i);
        case Store(_, _) => code := GenStore(i);
        case Alloca(_, _) => code := GenAlloca(i);
        case Gep(_, _, _) => code := GenGep(i);
      }
    }

    // ----- control flow -----

    /** The sources and targets of the copies on an edge, in the order of the phis. */
    method CollectPhiCopies(pred: Block, succ: Block) returns (copies: seq<(Operand, Phi)>)
      requires EdgeOk(f, pred, succ)
      ensures |copies| == |f.blocks[succ].phis|
      ensures forall k :: 0 <= k < |copies| ==>
                copies[k].1 == f.blocks[succ].phis[k] && Incoming(copies[k].1, pred) == Some(copies[k].0)
    {
      var phis := f.blocks[succ].phis;
      copies := [];
      for k := 0 to |phis|
        invariant |copies| == k
        invariant forall j :: 0 <= j < k ==> copies[j].1 == phis[j] && Incoming(copies[j].1, pred) == Some(copies[j].0)
      {
        var foundIncoming := false;
        ghost var before := copies;
        for i := 0 to |phis[k].incoming|
          invariant foundIncoming <==> exists j :: 0 <= j < i && phis[k].incoming[j].1 == pred
          invariant !foundIncoming ==> copies == before
          invariant foundIncoming ==> |copies| == k + 1 && copies[..k] == before && copies[k].1 == phis[k]
          invariant foundIncoming ==> Incoming(phis[k], pred) == Some(copies[k].0)
        {
          if phis[k].incoming[i].1 != pred {
            continue;
          }
          FirstIncoming(phis[k].incoming, pred, i);
          copies := copies + [(phis[k].incoming[i].0, phis[k])];
          foundIncoming := true;
        }
      }
    }

    /** Saves every source before any phi is written. */
    method EmitParallelPhiCopies(pred: Block, succ: Block) returns (ghost code: seq<Asm>)
      requires Ready() && EdgeOk(f, pred, succ) && SourcesPlaceable(f, succ)
      modifies this`output
      ensures output == old(output) + code && CopiesEdge(f, Base(), code, pred, succ)
    {
      hide LoadsOperand, LoadsSlot, StoresSlot, IsOwner, LaidOut, WellTyped, Saves, Copies, CopiesEdge, PhiGroup,
           Placeable;
      var copies := CollectPhiCopies(pred, succ);
      ghost var phis := f.blocks[succ].phis;
      ghost var start := output;
      PhisTogether(f, succ);
      code := [];
      SavesNone(f, Base(), phis, pred);
      for k := 0 to |copies|
        invariant output == start + code && Saves(f, Base(), code, phis, pred, k)
        invariant offsetMap == old(offsetMap) && phiTempOffsetMap == old(phiTempOffsetMap)
        invariant frameSize == old(frameSize)
      {
        var phi := copies[k].1;
        PhiPlaces(f, succ, k, pred);
        OffsetKnown(Temp(phi.id));
        var tempOffset := phiTempOffsetMap[phi.id];
        ghost var c1 := LoadToGreg(copies[k].0, T0);
        ghost var c2 := StoreToStack(phi.ty, tempOffset, T0);
        SaveOne(f, Base(), code, c1, c2, phis, pred, k);
        code := code + (c1 + c2);
      }
      CopiesNone(f, Base(), code, phis, pred);
      for k := 0 to |copies|
        invariant output == start + code && Copies(f, Base(), code, phis, pred, k)
        invariant offsetMap == old(offsetMap) && phiTempOffsetMap == old(phiTempOffsetMap)
        invariant frameSize == old(frameSize)
      {
        var phi := copies[k].1;
        PhiPlaces(f, succ, k, pred);
        OffsetKnown(Temp(phi.id));
        OffsetKnown(Slot(phi.id));
        var tempOffset := phiTempOffsetMap[phi.id];
        var destinationOffset := offsetMap[phi.id];
        ghost var c1 := LoadFromStack(phi.ty, tempOffset, T0);
        ghost var c2 := StoreToStack(phi.ty, destinationOffset, T0);
        CopyOne(f, Base(), code, c1, c2, phis, pred, k);
        code := code + (c1 + c2);
      }
      EdgeCopied(f, Base(), code, pred, succ);
    }

    method GenRet(t: Term) returns (ghost c: TermCode)
      requires Ready() && t.Ret? && (t.val.Some? ==> Placeable(f, t.val.value))
      modifies this`output
      ensures output == old(output) + TermText(t, c) && c.RetCode? && forall p :: TermSound(f, Base(), p, t, c)
    {
      hide LoadsOperand, LoadsImm, LaidOut, WellTyped;
      ghost var load: seq<Asm>;
      if t.val.None? {
        load := LoadInt32(0, A0);
      } else {
        load := LoadToGreg(t.val.value, A0);
      }
      AppendInst(Jump(ExitLabel));
      c := RetCode(load);
    }

    method GenBr(pred: Block, t: Term) returns (ghost c: TermCode)
      requires Ready() && !t.Ret? && TermTyped(f, pred, t) && TermPlaceable(f, t)
      modifies this`output, this`nextPhiEdgeId
      ensures output == old(output) + TermText(t, c) && TermSound(f, Base(), pred, t, c)
      ensures t.Br? ==> nextPhiEdgeId == old(nextPhiEdgeId)
      ensures t.CondBr? ==> c.CondCode? && c.edge == old(nextPhiEdgeId) && nextPhiEdgeId == old(nextPhiEdgeId) + 1
    {
      hide LoadsOperand, LaidOut, WellTyped, CopiesEdge, SourcesPlaceable;
      if t.Br? {
        ghost var copies := EmitParallelPhiCopies(pred, t.t);
        AppendInst(Jump(BlockLabel(t.t)));
        c := BrCode(copies);
        return;
      }
      ghost var load := LoadToGreg(t.c, T0);
      var trueEdge := nextPhiEdgeId;
      nextPhiEdgeId := nextPhiEdgeId + 1;
      AppendInst(Bnez(T0, EdgeLabel(trueEdge)));
      ghost var onFalse := EmitParallelPhiCopies(pred, t.f);
      AppendInst(Jump(BlockLabel(t.f)));
      AppendInst(Mark(EdgeLabel(trueEdge)));
      ghost var onTrue := EmitParallelPhiCopies(pred, t.t);
      AppendInst(Jump(BlockLabel(t.t)));
      c := CondCode(load, trueEdge, onFalse, onTrue);
    }

    /** One block: its label, its instructions, its terminator. */
    method GenBlock(b: Block) returns (ghost c: BlockCode)
      requires Ready() && b < |f.blocks| && BlockPlaceable(f, b)
      modifies this`output, this`nextPhiEdgeId
      ensures output == old(output) + BlockText(f, b, c) && c.start == |old(output)| && BlockSound(f, Base(), b, c)
      ensures nextPhiEdgeId == old(nextPhiEdgeId) + if f.blocks[b].term.CondBr? then 1 else 0
      ensures f.blocks[b].term.CondBr? ==> c.term.CondCode? && c.term.edge == old(nextPhiEdgeId)
    {
      hide LaidOut, Implements, ImplementsAll, TermSound, TermText, WellTyped, TermTyped, Placeable, Selectable;
      var blk := f.blocks[b];
      ghost var start := output;
      AppendInst(Mark(BlockLabel(b)));
      ghost var body: seq<Asm> := [];
      ImplementsNone(f, Base());
      for i := 0 to |blk.body|
        invariant output == start + [Mark(BlockLabel(b))] + body && ImplementsAll(f, Base(), body, blk.body[..i])
        invariant offsetMap == old(offsetMap) && phiTempOffsetMap == old(phiTempOffsetMap)
        invariant frameSize == old(frameSize)
        invariant nextPhiEdgeId == old(nextPhiEdgeId)
      {
        assert Selectable(f, blk.body[i]);
        ghost var code := GenIns(blk.body[i]);
        ImplementsMore(f, Base(), body, blk.body[..i], code, blk.body[i]);
        assert blk.body[..i + 1] == blk.body[..i] + [blk.body[i]];
        body := body + code;
      }
      assert blk.body[..|blk.body|] == blk.body;
      TermOk(f, b);
      ghost var term: TermCode;
      if blk.term.Ret? {
        term := GenRet(blk.term);
      } else {
        term := GenBr(b, blk.term);
      }
      c := BlockCode(|start|, body, term);
    }

    /** The code of the function, from the prologue to the epilogue. */
    method Run() returns (ghost code: seq<BlockCode>, ghost enter: seq<Asm>)
      requires WellTyped(f) && UniqueIds(f) && FrameSize(f) < TWO_31 && |f.args| <= ARG_REGS
      requires forall b: Block :: b < |f.blocks| ==> BlockPlaceable(f, b)
      requires output == [] && nextPhiEdgeId == 0
      modifies this
      ensures LaidOut(f, Base()) && frameSize == FrameSize(f) && Compiled(f, Base(), output, code)
      ensures Framed(f, Base(), output, code, enter)
    {
      hide LaidOut, BlockSound, WellTyped, UniqueIds, Placed, MarksUpTo, BlockPlaceable, Enters;
      Allocate();
      SomeBlock(f);
      enter := GenPrologue();
      code := [];
      EnterMarks(f, Base(), enter, |f.args|);
      PlacedAtEnd([], enter);
      assert output == enter == [] + enter;
      for b := 0 to |f.blocks|
        invariant Ready() && frameSize == FrameSize(f) && |code| == b && MarksUpTo(output, b, nextPhiEdgeId)
        invariant Placed(output, 0, enter) && Enters(f, Base(), enter, |f.args|)
        invariant if b == 0 then output == enter else code[ENTRY].start == |enter|
        invariant forall c: Block :: c < b ==>
                    BlockSound(f, Base(), c, code[c]) && Placed(output, code[c].start, BlockText(f, c, code[c]))
      {
        ghost var before, edges := output, nextPhiEdgeId;
        ghost var c := GenBlock(b);
        MarksOfBlock(f, Base(), before, b, edges, c);
        PlacedStays(f, code, before, BlockText(f, b, c));
        PlacedBefore(before, BlockText(f, b, c), enter);
        PlacedAtEnd(before, BlockText(f, b, c));
        code := code + [c];
      }
      ghost var leave := [Mark(ExitLabel)] + LEAVING + [JumpReg(RA)];
      PlacedStays(f, code, output, leave);
      PlacedBefore(output, leave, enter);
      PlacedAtEnd(output, leave);
      ExitMark(output, |f.blocks|, nextPhiEdgeId);
      GenEpilogue();
    }
  }

  /** An operand that has a place: a constant, or a value defined somewhere in the function. */
  ghost predicate Placeable(f: Fun, o: Operand) {
    HasSomeType(f, o) && (o.Var? ==> IsOwner(f, Slot(o.id)))
  }

  /** An instruction of the function, with operands that have places. */
  ghost predicate Selectable(f: Fun, i: Ins) {
    && InsTyped(f, i) && (!i.Store? ==> IsOwner(f, Slot(i.id))) && (i.Alloca? ==> IsOwner(f, Area(i.id)))
    && match i
       case Binary(_, _, l, r) => Placeable(f, l) && Placeable(f, r)
       case Icmp(_, _, l, r) => Placeable(f, l) && Placeable(f, r)
       case Zext(_, v) => Placeable(f, v)
       case Load(_, _, ptr) => Placeable(f, ptr)
       case Store(val, ptr) => Placeable(f, val) && Placeable(f, ptr)
       case Alloca(_, _) => true
       case Gep(_, base, indices) => Placeable(f, base) && forall k :: 0 <= k < |indices| ==> Placeable(f, indices[k])
  }

  ghost predicate SourcesPlaceable(f: Fun, b: Block) {
    b < |f.blocks| && forall k, i ::
      0 <= k < |f.blocks[b].phis| && 0 <= i < |f.blocks[b].phis[k].incoming| ==>
      Placeable(f, f.blocks[b].phis[k].incoming[i].0)
  }

  ghost predicate TermPlaceable(f: Fun, t: Term) {
    match t
    case Ret(val) => val.Some? ==> Placeable(f, val.value)
    case Br(b) => SourcesPlaceable(f, b)
    case CondBr(c, b, e) => Placeable(f, c) && SourcesPlaceable(f, b) && SourcesPlaceable(f, e)
  }

  ghost predicate BlockPlaceable(f: Fun, b: Block)
    requires b < |f.blocks|
  {
    TermPlaceable(f, f.blocks[b].term) && forall i :: 0 <= i < |f.blocks[b].body| ==> Selectable(f, f.blocks[b].body[i])
  }

  lemma {:induction false} FirstIncoming(incoming: seq<(Operand, Block)>, p: Block, i: nat)
    requires i < |incoming| && incoming[i].1 == p && forall j :: 0 <= j < i ==> incoming[j].1 != p
    ensures FromPred(incoming, p) == Some(incoming[i].0)
    decreases i
  {
    if i > 0 {
      FirstIncoming(incoming[1..], p, i - 1);
    }
  }

  lemma TermOk(f: Fun, b: Block)
    requires WellTyped(f) && b < |f.blocks| && BlockPlaceable(f, b)
    ensures TermTyped(f, b, f.blocks[b].term) && TermPlaceable(f, f.blocks[b].term)
  {
    hide TermTyped, TermPlaceable, PhiTyped, InsTyped;
    assert BlockTyped(f, b);
  }

  lemma PhisTogether(f: Fun, b: Block)
    requires WellTyped(f) && b < |f.blocks|
    ensures PhiGroup(f, f.blocks[b].phis)
  {
    hide TermTyped, InsTyped;
    assert BlockTyped(f, b);
  }

  lemma PhiPlaces(f: Fun, b: Block, k: nat, p: Block)
    requires WellTyped(f) && b < |f.blocks| && k < |f.blocks[b].phis| && SourcesPlaceable(f, b)
    requires Incoming(f.blocks[b].phis[k], p).Some?
    ensures var phi := f.blocks[b].phis[k];
            && IsOwner(f, Temp(phi.id)) && IsOwner(f, Slot(phi.id)) && phi.ty.Scalar()
            && Placeable(f, Incoming(phi, p).value)
  {
    hide TermTyped, InsTyped, Placeable;
    assert BlockTyped(f, b);
    var phi := f.blocks[b].phis[k];
    assert PhiTyped(f, phi);
    assert IsPhi(f, phi.id);
    var i :| 0 <= i < |phi.incoming| && phi.incoming[i] == (Incoming(phi, p).value, p);
  }

  // ----- labels -----

  /** The labels so far: those of the first blocks and edges, each once. */
  ghost predicate MarksUpTo(prog: seq<Asm>, b: nat, edges: nat) {
    && MarksDistinct(prog)
    && forall i :: 0 <= i < |prog| && prog[i].Mark? ==>
         match prog[i].l
         case BlockLabel(c) => c < b
         case EdgeLabel(k) => k < edges
         case ExitLabel => false
  }

  ghost predicate Unmarked(code: seq<Asm>) {
    forall i :: 0 <= i < |code| ==> !code[i].Mark?
  }

  lemma AppendUnmarked(prog: seq<Asm>, code: seq<Asm>, b: nat, edges: nat)
    requires MarksUpTo(prog, b, edges) && Unmarked(code)
    ensures MarksUpTo(prog + code, b, edges)
  {
  }

  lemma AppendBlockMark(prog: seq<Asm>, b: nat, edges: nat)
    requires MarksUpTo(prog, b, edges)
    ensures MarksUpTo(prog + [Mark(BlockLabel(b))], b + 1, edges)
  {
  }

  lemma AppendEdgeMark(prog: seq<Asm>, b: nat, edges: nat)
    requires MarksUpTo(prog, b, edges)
    ensures MarksUpTo(prog + [Mark(EdgeLabel(edges))], b, edges + 1)
  {
  }

  lemma ExitMark(prog: seq<Asm>, b: nat, edges: nat)
    requires MarksUpTo(prog, b, edges)
    ensures var all := prog + ([Mark(ExitLabel)] + LEAVING + [JumpReg(RA)]);
            MarksDistinct(all) && Mark(ExitLabel) in all && Find(all, ExitLabel) == |prog|
  {
    var all := prog + ([Mark(ExitLabel)] + LEAVING + [JumpReg(RA)]);
    assert all[|prog|] == Mark(ExitLabel);
    forall i, j | 0 <= i < j < |all| && all[i].Mark?
      ensures all[i] != all[j]
    {
      if j > |prog| {
        assert !all[j].Mark?;
      }
    }
    FindUnique(all, ExitLabel, |prog|);
  }

  lemma EnterMarks(f: Fun, base: Frame, enter: seq<Asm>, k: nat)
    requires k <= |f.args| && k <= ARG_REGS && Enters(f, base, enter, k)
    ensures MarksUpTo(enter, 0, 0)
  {
    PlainUnmarked(enter);
    AppendUnmarked([], enter, 0, 0);
    assert [] + enter == enter;
  }

  lemma PlacedBefore(prog: seq<Asm>, more: seq<Asm>, code: seq<Asm>)
    requires Placed(prog, 0, code)
    ensures Placed(prog + more, 0, code)
  {
    assert (prog + more)[0..|code|] == prog[0..|code|];
  }

  lemma PlainUnmarked(code: seq<Asm>)
    requires Plain(code)
    ensures Unmarked(code)
  {
    forall i | 0 <= i < |code|
      ensures !code[i].Mark?
    {
      assert code[i] in code;
    }
  }

  /** The code of a block brings the block's label and at most one edge label, both new. */
  lemma MarksOfBlock(f: Fun, base: Frame, prog: seq<Asm>, b: Block, edges: nat, c: BlockCode)
    requires b < |f.blocks| && BlockSound(f, base, b, c) && MarksUpTo(prog, b, edges)
    requires f.blocks[b].term.CondBr? ==> c.term.CondCode? && c.term.edge == edges
    ensures MarksUpTo(prog + BlockText(f, b, c), b + 1, edges + if f.blocks[b].term.CondBr? then 1 else 0)
  {
    hide MarksUpTo, ImplementsAll, TermSound, TermText;
    var mark := [Mark(BlockLabel(b))];
    AppendBlockMark(prog, b, edges);
    BodyPlain(f, base, b, c);
    PlainUnmarked(c.body);
    AppendUnmarked(prog + mark, c.body, b + 1, edges);
    MarksOfTerm(f, base, b, f.blocks[b].term, prog + mark + c.body, b + 1, edges, c.term);
    assert prog + BlockText(f, b, c) == prog + mark + c.body + TermText(f.blocks[b].term, c.term);
  }

  lemma BodyPlain(f: Fun, base: Frame, b: Block, c: BlockCode)
    requires b < |f.blocks| && BlockSound(f, base, b, c)
    ensures Plain(c.body)
  {
    hide TermSound;
  }

  lemma MarksOfTerm(f: Fun, base: Frame, p: Block, t: Term, prog: seq<Asm>, b: nat, edges: nat, c: TermCode)
    requires TermSound(f, base, p, t, c) && MarksUpTo(prog, b, edges)
    requires t.CondBr? ==> c.edge == edges
    ensures MarksUpTo(prog + TermText(t, c), b, edges + if t.CondBr? then 1 else 0)
  {
    hide MarksUpTo;
    TermPlain(f, base, p, t, c);
    if t.CondBr? {
      var front := c.load + [Bnez(T0, EdgeLabel(c.edge))] + c.onFalse + [Jump(BlockLabel(t.f))];
      var back := c.onTrue + [Jump(BlockLabel(t.t))];
      AppendUnmarked(prog, front, b, edges);
      AppendEdgeMark(prog + front, b, edges);
      AppendUnmarked(prog + front + [Mark(EdgeLabel(edges))], back, b, edges + 1);
      assert prog + TermText(t, c) == prog + front + [Mark(EdgeLabel(edges))] + back;
    } else {
      AppendUnmarked(prog, TermText(t, c), b, edges);
    }
  }

  lemma TermPlain(f: Fun, base: Frame, p: Block, t: Term, c: TermCode)
    requires TermSound(f, base, p, t, c)
    ensures !t.CondBr? ==> Unmarked(TermText(t, c))
    ensures t.CondBr? ==> Unmarked(c.load + [Bnez(T0, EdgeLabel(c.edge))] + c.onFalse + [Jump(BlockLabel(t.f))])
    ensures t.CondBr? ==> Unmarked(c.onTrue + [Jump(BlockLabel(t.t))])
  {
    hide Related, Suits, Cross, Loads;
    match t {
      case Ret(_) => PlainUnmarked(c.load);
      case Br(_) => PlainUnmarked(c.copies);
      case CondBr(_, _, _) =>
        PlainUnmarked(c.load);
        PlainUnmarked(c.onFalse);
        PlainUnmarked(c.onTrue);
    }
  }

  lemma PlacedStays(f: Fun, code: seq<BlockCode>, prog: seq<Asm>, more: seq<Asm>)
    requires |code| <= |f.blocks|
    ensures forall c: Block :: c < |code| && Placed(prog, code[c].start, BlockText(f, c, code[c])) ==>
              Placed(prog + more, code[c].start, BlockText(f, c, code[c]))
  {
    hide BlockText;
    forall c: Block | c < |code| && Placed(prog, code[c].start, BlockText(f, c, code[c]))
      ensures Placed(prog + more, code[c].start, BlockText(f, c, code[c]))
    {
      var pc, n := code[c].start, |BlockText(f, c, code[c])|;
      assert (prog + more)[pc..pc + n] == prog[pc..pc + n];
    }
  }

  lemma PlacedAtEnd(prog: seq<Asm>, more: seq<Asm>)
    ensures Placed(prog + more, |prog|, more)
  {
    assert (prog + more)[|prog|..|prog| + |more|] == more;
  }

  lemma SmallImm(val: int, reg: Reg)
    requires IsImm12(val) && reg != ZERO
    ensures LoadsImm([AddiW(reg, ZERO, val)], reg, val)
  {
    forall m: Machine
      ensures Exec([AddiW(reg, ZERO, val)], m) == SetReg(m, reg, val)
    {
      ExecOne(AddiW(reg, ZERO, val), m);
    }
  }

  lemma LargeInt64All(val: int, reg: Reg, code: seq<Asm>)
    requires Is64(val) && reg != ZERO && LoadsImm(code, reg, Wrap32(val % TWO_32))
    ensures LoadsImm(code + [Lu32iD(reg, Wrap32(val / TWO_32 * 0x1000) / 0x1000)] + [Lu52iD(reg, reg, val / TWO_32 / 0x10_0000)],
                     reg, val)
  {
    var all := code + [Lu32iD(reg, Wrap32(val / TWO_32 * 0x1000) / 0x1000)] + [Lu52iD(reg, reg, val / TWO_32 / 0x10_0000)];
    forall m: Machine
      ensures Exec(all, m) == SetReg(m, reg, val) && Plain(all)
    {
      LargeInt64(val, reg, code, m);
    }
  }

  // ----- frame layout -----

  lemma NothingPacked(f: Fun)
    ensures Packed(f, Tables(map[], map[], PROLOGUE_OFFSET_BASE), {}) && Known(f, {}, {})
  {
  }

  lemma KnownMore(f: Fun, seen: set<Site>, done: set<Owner>, site: Site, o: Owner)
    requires Known(f, seen, done) && HasId(f, site, o.id)
    ensures Known(f, seen + {site}, done + {o}) && (site in seen ==> Known(f, seen, done + {o}))
  {
    hide HasId;
    forall x | x in done + {o}
      ensures exists y :: y in seen + {site} && HasId(f, y, x.id)
    {
      if x in done {
        var y :| y in seen && HasId(f, y, x.id);
        assert y in seen + {site};
      }
    }
  }

  lemma SomeBlock(f: Fun)
    requires WellTyped(f)
    ensures 0 < |f.blocks|
  {
  }

  lemma ArgTyped(f: Fun, i: nat)
    requires WellTyped(f) && i < |f.args|
    ensures f.args[i] in f.types && f.types[f.args[i]].Scalar() && IsOwner(f, Slot(f.args[i]))
  {
    hide BlockTyped;
  }

  lemma ArgScalar(f: Fun, i: nat)
    requires WellTyped(f) && i < |f.args|
    ensures TypeAt(f, f.args[i]).Scalar()
  {
    hide BlockTyped;
  }

  lemma PhiScalar(f: Fun, b: Block, i: nat)
    requires WellTyped(f) && b < |f.blocks| && i < |f.blocks[b].phis|
    ensures TypeAt(f, f.blocks[b].phis[i].id).Scalar()
  {
    hide InsTyped, TermTyped;
    assert BlockTyped(f, b);
    assert PhiTyped(f, f.blocks[b].phis[i]);
  }

  lemma InsScalar(f: Fun, b: Block, i: nat)
    requires WellTyped(f) && b < |f.blocks| && i < |f.blocks[b].body| && !f.blocks[b].body[i].Store?
    ensures f.blocks[b].body[i].id in f.types && TypeAt(f, f.blocks[b].body[i].id).Scalar()
  {
    hide PhiTyped, TermTyped;
    assert BlockTyped(f, b);
    assert InsTyped(f, f.blocks[b].body[i]);
  }

  lemma AreaOf(f: Fun, b: Block, i: nat)
    requires WellTyped(f) && b < |f.blocks| && i < |f.blocks[b].body| && f.blocks[b].body[i].Alloca?
    ensures AreaSize(f, f.blocks[b].body[i].id) == f.blocks[b].body[i].elem.Size()
  {
    hide PhiTyped, TermTyped;
    assert BlockTyped(f, b);
    assert InsTyped(f, f.blocks[b].body[i]);
  }

  predicate InsPlaced(i: Ins, done: set<Owner>) {
    (!i.Store? ==> Slot(i.id) in done) && (i.Alloca? ==> Area(i.id) in done)
  }

  ghost predicate BlockPlaced(f: Fun, done: set<Owner>, b: Block) {
    && b < |f.blocks|
    && (forall j :: 0 <= j < |f.blocks[b].phis| ==>
          Slot(f.blocks[b].phis[j].id) in done && Temp(f.blocks[b].phis[j].id) in done)
    && (forall j :: 0 <= j < |f.blocks[b].body| ==> InsPlaced(f.blocks[b].body[j], done))
  }

  lemma StillPlaced(f: Fun, done: set<Owner>, done': set<Owner>, b: Block)
    requires done <= done'
    ensures forall c: Block :: c < b && BlockPlaced(f, done, c) ==> BlockPlaced(f, done', c)
  {
  }

  lemma AllPlaced(f: Fun, done: set<Owner>)
    requires forall j :: 0 <= j < |f.args| ==> Slot(f.args[j]) in done
    requires forall c: Block :: c < |f.blocks| ==> BlockPlaced(f, done, c)
    ensures forall o :: IsOwner(f, o) ==> o in done
  {
    forall o | IsOwner(f, o)
      ensures o in done
    {
      if (o.Slot? || o.Temp?) && IsPhi(f, o.id) {
        var b: Block, i: nat :| b < |f.blocks| && i < |f.blocks[b].phis| && f.blocks[b].phis[i].id == o.id;
        assert BlockPlaced(f, done, b);
      } else if o.Slot? && IsBodyResult(f, o.id) {
        var b: Block, i: nat :| b < |f.blocks| && i < |f.blocks[b].body| && ResultOf(f.blocks[b].body[i], o.id);
        assert BlockPlaced(f, done, b);
        assert InsPlaced(f.blocks[b].body[i], done);
      } else if o.Area? {
        var b: Block, i: nat :|
          b < |f.blocks| && i < |f.blocks[b].body| && f.blocks[b].body[i].Alloca? && f.blocks[b].body[i].id == o.id;
        assert BlockPlaced(f, done, b);
        assert InsPlaced(f.blocks[b].body[i], done);
      }
    }
  }

  /** Compiling a function. */
  method Compile(f: Fun) returns (prog: seq<Asm>, base: Frame)
    requires WellTyped(f) && UniqueIds(f) && FrameSize(f) < TWO_31 && |f.args| <= ARG_REGS
    requires forall b: Block :: b < |f.blocks| ==> BlockPlaceable(f, b)
    ensures LaidOut(f, base) && base.size == FrameSize(f) && Follows(f, base, prog) && Serves(f, base, prog)
  {
    hide LaidOut, Compiled, Follows, Serves, Framed, WellTyped, UniqueIds, BlockPlaceable;
    var cg := new CodeGen(f);
    ghost var code, enter := cg.Run();
    prog, base := cg.output, Tables(cg.offsetMap, cg.phiTempOffsetMap, cg.frameSize);
    CompiledFollows(f, base, prog, code);
    FramedServes(f, base, prog, code, enter);
  }
}
