/** The stack frame: what lies where, and when machine memory stands for an IR state. */
module Frames {
  import opened Graphs
  import opened LoongArch
  import opened Assembly
  import opened StackIr

  const PROLOGUE_OFFSET_BASE := 16
  const PROLOGUE_ALIGN := 16

  /** The parts of a frame: a slot per value, a second slot per phi, and the memory of each allocation. */
  datatype Owner = Slot(id: Id) | Temp(id: Id) | Area(id: Id)

  /** The tables that frame allocation fills, for a frame whose pointer is `fp`, in a call that began with the
      registers `caller`. */
  datatype Frame = Frame(fp: int, caller: RegFile, offsets: map<Id, int>, temps: map<Id, int>, size: nat)

  /** The tables alone: the call is left open. */
  function Tables(offsets: map<Id, int>, temps: map<Id, int>, size: nat): Frame {
    Frame(0, seq(32, i => 0), offsets, temps, size)
  }

  ghost predicate SameTables(base: Frame, fr: Frame) {
    fr == base.(fp := fr.fp, caller := fr.caller)
  }

  ghost predicate IsPhi(f: Fun, id: Id) {
    exists b: Block, i: nat :: b < |f.blocks| && i < |f.blocks[b].phis| && f.blocks[b].phis[i].id == id
  }

  predicate ResultOf(i: Ins, id: Id) {
    !i.Store? && i.id == id
  }

  ghost predicate IsBodyResult(f: Fun, id: Id) {
    exists b: Block, i: nat :: b < |f.blocks| && i < |f.blocks[b].body| && ResultOf(f.blocks[b].body[i], id)
  }

  ghost predicate IsAlloca(f: Fun, id: Id) {
    exists b: Block, i: nat ::
      b < |f.blocks| && i < |f.blocks[b].body| && f.blocks[b].body[i].Alloca? && f.blocks[b].body[i].id == id
  }

  ghost predicate IsOwner(f: Fun, o: Owner) {
    match o
    case Slot(id) => id in f.args || IsPhi(f, id) || IsBodyResult(f, id)
    case Temp(id) => IsPhi(f, id)
    case Area(id) => IsAlloca(f, id)
  }

  function TypeAt(f: Fun, id: Id): Ty {
    if id in f.types then f.types[id] else I32
  }

  function AreaSize(f: Fun, id: Id): nat {
    if TypeAt(f, id).Ptr? then TypeAt(f, id).elem.Size() else 0
  }

  function Length(f: Fun, o: Owner): nat {
    if o.Area? then AreaSize(f, o.id) else TypeAt(f, o.id).Size()
  }

  function At(m: map<Id, int>, id: Id): int {
    if id in m then m[id] else 0
  }

  /** Where a part begins, relative to the frame pointer. */
  function Start(f: Fun, fr: Frame, o: Owner): int {
    match o
    case Slot(id) => At(fr.offsets, id)
    case Temp(id) => At(fr.temps, id)
    case Area(id) => At(fr.offsets, id) - AreaSize(f, id)
  }

  ghost predicate Located(fr: Frame, o: Owner) {
    if o.Temp? then o.id in fr.temps else o.id in fr.offsets
  }

  predicate Apart(a: int, n: nat, b: int, k: nat) {
    a + n <= b || b + k <= a
  }

  /** A part lies between the saved registers and the end of the frame; slots are aligned to their size. */
  ghost predicate Inside(f: Fun, fr: Frame, o: Owner) {
    && Located(fr, o)
    && 0 - fr.size <= Start(f, fr, o) && Start(f, fr, o) + Length(f, o) <= -PROLOGUE_OFFSET_BASE
    && (!o.Area? ==> Length(f, o) > 0 && Start(f, fr, o) % Length(f, o) == 0)
  }

  ghost predicate NoOverlap(f: Fun, fr: Frame, o: Owner, o': Owner) {
    Apart(Start(f, fr, o), Length(f, o), Start(f, fr, o'), Length(f, o'))
  }

  /** Every part has its own place in the frame, and the stack pointer stays on a multiple of sixteen. */
  ghost predicate LaidOut(f: Fun, fr: Frame) {
    && (forall o {:trigger IsOwner(f, o)} :: IsOwner(f, o) ==> Inside(f, fr, o))
    && (forall o, o' {:trigger IsOwner(f, o), IsOwner(f, o')} :: IsOwner(f, o) && IsOwner(f, o') && o != o' ==>
          NoOverlap(f, fr, o, o'))
    && PROLOGUE_OFFSET_BASE <= fr.size && fr.size % 16 == 0
  }

  /** The frame can be addressed: offsets fit into 32 bits, and the stack does not wrap around. */
  predicate Addressable(fr: Frame) {
    fr.size < TWO_31 && Is64(fr.fp - fr.size) && Is64(fr.fp)
  }

  // ----- what the program may touch -----

  ghost predicate InArea(f: Fun, fr: Frame, a: int) {
    exists id :: IsAlloca(f, id) && fr.fp + Start(f, fr, Area(id)) <= a < fr.fp + At(fr.offsets, id)
  }

  /** Its own allocations, and everything outside the frame. */
  ghost function LayoutOf(f: Fun, fr: Frame): Layout {
    Layout(map id | id in fr.offsets :: fr.fp + fr.offsets[id] - AreaSize(f, id),
           iset a: int | a < fr.fp - fr.size || a >= fr.fp || InArea(f, fr, a))
  }

  /** Slots and temporaries are nothing that the program may touch. */
  lemma UserApart(f: Fun, fr: Frame, o: Owner, a: int)
    requires LaidOut(f, fr) && IsOwner(f, o) && !o.Area? && a in LayoutOf(f, fr).user
    ensures a < fr.fp + Start(f, fr, o) || a >= fr.fp + Start(f, fr, o) + Length(f, o)
  {
    hide IsPhi, IsBodyResult, IsAlloca;
    assert Inside(f, fr, o);
    if InArea(f, fr, a) {
      var id :| IsAlloca(f, id) && fr.fp + Start(f, fr, Area(id)) <= a < fr.fp + At(fr.offsets, id);
      assert IsOwner(f, Area(id)) && Area(id) != o;
      assert NoOverlap(f, fr, o, Area(id));
    }
  }

  lemma SlotNotUser(f: Fun, fr: Frame, o: Owner, a: int)
    requires LaidOut(f, fr) && IsOwner(f, o) && !o.Area?
    requires fr.fp + Start(f, fr, o) <= a < fr.fp + Start(f, fr, o) + Length(f, o)
    ensures a !in LayoutOf(f, fr).user
  {
    hide LaidOut, IsOwner, LayoutOf;
    if a in LayoutOf(f, fr).user {
      UserApart(f, fr, o, a);
    }
  }

  // ----- memory that stands for a state -----

  ghost predicate SlotHolds(f: Fun, fr: Frame, m: Memory, id: Id, x: int) {
    && id in f.types && IsOwner(f, Slot(id)) && f.types[id].Scalar() && f.types[id].Holds(x)
    && Read(m, fr.fp + At(fr.offsets, id), f.types[id].Size()) == x
  }

  /** The two words below the frame pointer hold the return address and the frame pointer of the caller. */
  ghost predicate Saved(fr: Frame, m: Memory) {
    Read(m, fr.fp - 8, 8) == fr.caller[RA] && Read(m, fr.fp - 16, 8) == fr.caller[FP]
  }

  /** The slot of every defined value holds it, the memory of the program agrees, and what is saved is there. */
  ghost predicate Stands(f: Fun, fr: Frame, s: State, m: Memory) {
    && (forall id :: id in s.env ==> SlotHolds(f, fr, m, id, s.env[id]))
    && (forall a :: a in LayoutOf(f, fr).user ==> m(a) == s.mem(a))
    && Saved(fr, m)
  }

  /** The frame lies between the stack pointer and the frame pointer, and the other registers that belong to the caller
      are as they were. */
  ghost predicate InFrame(fr: Frame, regs: RegFile) {
    && regs[FP] == fr.fp && regs[SP] == fr.fp - fr.size
    && forall r: Reg :: Kept(r) && r != FP && r != SP ==> regs[r] == fr.caller[r]
  }

  ghost predicate Related(f: Fun, fr: Frame, s: State, m: Machine) {
    InFrame(fr, m.regs) && Stands(f, fr, s, m.mem)
  }

  /** Writing to a part of the frame leaves the saved words alone. */
  lemma StillSaved(f: Fun, fr: Frame, o: Owner, m: Memory, n: nat, x: int)
    requires LaidOut(f, fr) && IsOwner(f, o) && Saved(fr, m) && 0 < n <= Length(f, o)
    ensures Saved(fr, Write(m, fr.fp + Start(f, fr, o), n, x))
  {
    hide IsOwner, Write, Read;
    assert Inside(f, fr, o);
    ReadElsewhere(m, fr.fp + Start(f, fr, o), n, x, fr.fp - 8, 8);
    ReadElsewhere(m, fr.fp + Start(f, fr, o), n, x, fr.fp - 16, 8);
  }

  /** The saved words are nothing that the program may touch. */
  lemma SavedNotUser(f: Fun, fr: Frame, a: int)
    requires LaidOut(f, fr) && fr.fp - 16 <= a < fr.fp
    ensures a !in LayoutOf(f, fr).user
  {
    hide LaidOut, InArea;
    RoomToSave(f, fr);
    if InArea(f, fr, a) {
      AreaBelow(f, fr, a);
    }
  }

  lemma RoomToSave(f: Fun, fr: Frame)
    requires LaidOut(f, fr)
    ensures 16 <= fr.size
  {
  }

  lemma AreaBelow(f: Fun, fr: Frame, a: int)
    requires LaidOut(f, fr) && InArea(f, fr, a)
    ensures fr.fp - fr.size <= a < fr.fp - 16
  {
    hide IsAlloca;
    var id :| IsAlloca(f, id) && fr.fp + Start(f, fr, Area(id)) <= a < fr.fp + At(fr.offsets, id);
    assert IsOwner(f, Area(id));
    assert Inside(f, fr, Area(id));
  }

  lemma StillSavedUser(f: Fun, fr: Frame, m: Memory, a: int, n: nat, x: int)
    requires LaidOut(f, fr) && Saved(fr, m) && n > 0 && InUser(LayoutOf(f, fr), a, n)
    ensures Saved(fr, Write(m, a, n, x))
  {
    hide LaidOut, LayoutOf, Write, Read;
    forall b | fr.fp - 16 <= b < fr.fp
      ensures Write(m, a, n, x)(b) == m(b)
    {
      SavedNotUser(f, fr, b);
      WriteElsewhere(m, a, n, x, b);
    }
    ReadSame(Write(m, a, n, x), m, fr.fp - 8, 8);
    ReadSame(Write(m, a, n, x), m, fr.fp - 16, 8);
  }

  lemma HoldsFits(ty: Ty, x: int)
    requires ty.Scalar() && ty.Holds(x)
    ensures Fits(x, ty.Size())
  {
    Fits4(x);
    Fits8(x);
  }

  /** Writing a value to its slot defines it and changes nothing else. */
  lemma StoreSlot(f: Fun, fr: Frame, s: State, m: Memory, id: Id, x: int)
    requires LaidOut(f, fr) && Stands(f, fr, s, m) && id in f.types && f.types[id].Scalar() && f.types[id].Holds(x)
    requires IsOwner(f, Slot(id))
    ensures Stands(f, fr, s.(env := s.env[id := x]), Write(m, fr.fp + At(fr.offsets, id), f.types[id].Size(), x))
  {
    hide LaidOut, IsOwner, LayoutOf, Fits, Write, Read;
    var a, n := fr.fp + At(fr.offsets, id), f.types[id].Size();
    HoldsFits(f.types[id], x);
    ReadWritten(m, a, n, x);
    forall j | j in s.env && j != id
      ensures SlotHolds(f, fr, Write(m, a, n, x), j, s.env[j])
    {
      assert SlotHolds(f, fr, m, j, s.env[j]);
      SlotsApart(f, fr, Slot(id), Slot(j));
      ReadElsewhere(m, a, n, x, fr.fp + At(fr.offsets, j), f.types[j].Size());
    }
    forall b | b in LayoutOf(f, fr).user
      ensures Write(m, a, n, x)(b) == s.mem(b)
    {
      UserApart(f, fr, Slot(id), b);
      WriteElsewhere(m, a, n, x, b);
    }
    StillSaved(f, fr, Slot(id), m, n, x);
  }

  lemma SlotsApart(f: Fun, fr: Frame, o: Owner, o': Owner)
    requires LaidOut(f, fr) && IsOwner(f, o) && IsOwner(f, o') && o != o'
    ensures Apart(fr.fp + Start(f, fr, o), Length(f, o), fr.fp + Start(f, fr, o'), Length(f, o'))
    ensures Located(fr, o)
  {
    hide IsOwner;
    assert NoOverlap(f, fr, o, o');
    assert Inside(f, fr, o);
  }

  /** Writing to a temporary changes nothing that stands for the state. */
  lemma StoreTemp(f: Fun, fr: Frame, s: State, m: Memory, id: Id, x: int)
    requires LaidOut(f, fr) && Stands(f, fr, s, m) && IsOwner(f, Temp(id)) && TypeAt(f, id).Scalar()
    ensures Stands(f, fr, s, Write(m, fr.fp + At(fr.temps, id), TypeAt(f, id).Size(), x))
  {
    hide LaidOut, IsOwner, LayoutOf, Fits, Write, Read;
    var a, n := fr.fp + At(fr.temps, id), TypeAt(f, id).Size();
    forall j | j in s.env
      ensures SlotHolds(f, fr, Write(m, a, n, x), j, s.env[j])
    {
      assert SlotHolds(f, fr, m, j, s.env[j]);
      SlotsApart(f, fr, Temp(id), Slot(j));
      ReadElsewhere(m, a, n, x, fr.fp + At(fr.offsets, j), f.types[j].Size());
    }
    forall b | b in LayoutOf(f, fr).user
      ensures Write(m, a, n, x)(b) == s.mem(b)
    {
      UserApart(f, fr, Temp(id), b);
      WriteElsewhere(m, a, n, x, b);
    }
    StillSaved(f, fr, Temp(id), m, n, x);
  }

  /** A store of the program. */
  lemma StoreUser(f: Fun, fr: Frame, s: State, m: Memory, a: int, n: nat, x: int)
    requires LaidOut(f, fr) && Stands(f, fr, s, m) && n > 0 && InUser(LayoutOf(f, fr), a, n)
    ensures Stands(f, fr, s.(mem := Write(s.mem, a, n, x)), Write(m, a, n, x))
  {
    hide LaidOut, IsOwner, LayoutOf, Write, Read;
    forall j | j in s.env
      ensures SlotHolds(f, fr, Write(m, a, n, x), j, s.env[j])
    {
      assert SlotHolds(f, fr, m, j, s.env[j]);
      var b, k := fr.fp + At(fr.offsets, j), f.types[j].Size();
      forall c | b <= c < b + k
        ensures Write(m, a, n, x)(c) == m(c)
      {
        SlotNotUser(f, fr, Slot(j), c);
        WriteElsewhere(m, a, n, x, c);
      }
      ReadSame(Write(m, a, n, x), m, b, k);
    }
    forall b | b in LayoutOf(f, fr).user
      ensures Write(m, a, n, x)(b) == Write(s.mem, a, n, x)(b)
    {
      WriteAlike(m, s.mem, a, n, x, b);
    }
    StillSavedUser(f, fr, m, a, n, x);
  }

  lemma LoadUser(f: Fun, fr: Frame, s: State, m: Memory, a: int, n: nat)
    requires Stands(f, fr, s, m) && n > 0 && InUser(LayoutOf(f, fr), a, n)
    ensures Read(m, a, n) == Read(s.mem, a, n)
  {
    hide LayoutOf;
    ReadSame(m, s.mem, a, n);
  }
}
