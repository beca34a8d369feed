/** Whole calls: from the first instruction of a function to the jump back to its caller. */
module FunctionCalls {
  import opened Graphs
  import opened Basics
  import opened LoongArch
  import opened Assembly
  import opened StackIr
  import opened Frames
  import opened Emission
  import opened PhiCopies
  import opened Simulation

  // ----- from the entry block on -----

  /** The emitted program follows the IR: from memory that stands for the start, it gets to the label of every block
      that the IR gets to, with memory that stands for the IR state, and when the IR returns it gets to its exit with
      the result in $a0. The words saved below the frame pointer stay as they are. */
  ghost predicate Follows(f: Fun, base: Frame, prog: seq<Asm>) {
    forall fr: Frame, start: State, m: Machine, p: seq<Block> {:trigger FollowsOn(f, fr, prog, start, m, p)} ::
      SameTables(base, fr) && Addressable(fr) && Related(f, fr, start, m) ==> FollowsOn(f, fr, prog, start, m, p)
  }

  ghost predicate FollowsOn(f: Fun, fr: Frame, prog: seq<Asm>, start: State, m: Machine, p: seq<Block>) {
    |p| > 0 && (forall i :: 0 <= i < |p| ==> p[i] < |f.blocks|) && RunTo(f, LayoutOf(f, fr), start, p).Some? ==>
      var s := RunTo(f, LayoutOf(f, fr), start, p).value;
      var b := p[|p| - 1];
      && Arrives(f, fr, prog, m, BlockLabel(b), s)
      && (Returns(f, fr, b, s) ==> ArrivesWith(f, fr, prog, m, b, s))
  }

  ghost predicate Arrives(f: Fun, fr: Frame, prog: seq<Asm>, m: Machine, l: Label, s: State) {
    exists m': Machine ::
      Leads(prog, Point(Find(prog, BlockLabel(ENTRY)), m), Point(Find(prog, l), m')) && Related(f, fr, s, m') &&
      SameSaved(fr, m.mem, m'.mem)
  }

  /** Running the body of `b` from `s` ends in a return whose operand, if any, has a value. */
  ghost predicate Returns(f: Fun, fr: Frame, b: Block, s: State)
    requires b < |f.blocks|
  {
    var s' := ExecBody(f, LayoutOf(f, fr), f.blocks[b].body, s);
    var t := f.blocks[b].term;
    s'.Some? && t.Ret? && (t.val.Some? ==> Eval(s'.value, t.val.value).Some?)
  }

  ghost predicate ArrivesWith(f: Fun, fr: Frame, prog: seq<Asm>, m: Machine, b: Block, s: State)
    requires b < |f.blocks| && Returns(f, fr, b, s)
  {
    var s' := ExecBody(f, LayoutOf(f, fr), f.blocks[b].body, s).value;
    var val := f.blocks[b].term.val;
    exists m': Machine ::
      && Leads(prog, Point(Find(prog, BlockLabel(ENTRY)), m), Point(Find(prog, ExitLabel), m')) && Related(f, fr, s', m')
      && SameSaved(fr, m.mem, m'.mem)
      && m'.regs[A0] == if val.Some? then Eval(s', val.value).value else 0
  }

  lemma CompiledFollows(f: Fun, base: Frame, prog: seq<Asm>, code: seq<BlockCode>)
    requires LaidOut(f, base) && Compiled(f, base, prog, code)
    ensures Follows(f, base, prog)
  {
    hide LaidOut, Compiled, Related, FollowsOn;
    forall fr: Frame, start: State, m: Machine, p: seq<Block> {:trigger FollowsOn(f, fr, prog, start, m, p)} |
        SameTables(base, fr) && Addressable(fr) && Related(f, fr, start, m)
      ensures FollowsOn(f, fr, prog, start, m, p)
    {
      AnyCall(f, base, fr);
      CompiledOn(f, base, fr, prog, code, start, m, p);
    }
  }

  lemma CompiledOn(f: Fun, base: Frame, fr: Frame, prog: seq<Asm>, code: seq<BlockCode>, start: State, m: Machine,
                   p: seq<Block>)
    requires Compiled(f, base, prog, code) && Suits(f, base, fr) && Related(f, fr, start, m)
    ensures FollowsOn(f, fr, prog, start, m, p)
  {
    hide Compiled, Suits, Related, Leads, LayoutOf, ExecBody, RunTo, SameSaved;
    if |p| > 0 && (forall i :: 0 <= i < |p| ==> p[i] < |f.blocks|) && RunTo(f, LayoutOf(f, fr), start, p).Some? {
      var s := RunTo(f, LayoutOf(f, fr), start, p).value;
      var b := p[|p| - 1];
      var m' := ProgramFollows(f, base, fr, prog, code, start, m, p);
      assert Arrives(f, fr, prog, m, BlockLabel(b), s);
      if Returns(f, fr, b, s) {
        var s' := ExecBody(f, LayoutOf(f, fr), f.blocks[b].body, s).value;
        var m2 := ProgramReturns(f, base, fr, prog, code, start, m, p, s');
        assert ArrivesWith(f, fr, prog, m, b, s);
      }
    }
  }

  // ----- the way in -----

  /** How many arguments are passed in registers. */
  const ARG_REGS := 8

  function Arg(i: nat): Reg
    requires i < ARG_REGS
  {
    A0 + i
  }

  /** The frame of a call that begins in `m`. */
  function FrameOf(base: Frame, m: Machine): Frame {
    base.(fp := m.regs[SP], caller := m.regs)
  }

  /** The state in which the body begins, when the first `k` arguments have been taken over. */
  function Passed(f: Fun, m: Machine, k: nat): State
    requires k <= |f.args| && k <= ARG_REGS
  {
    if k == 0 then State(map[], m.mem)
    else Passed(f, m, k - 1).(env := Passed(f, m, k - 1).env[f.args[k - 1] := m.regs[Arg(k - 1)]])
  }

  /** The caller has passed arguments of the right types, and there is room on the stack. */
  ghost predicate Called(f: Fun, base: Frame, m: Machine) {
    && |f.args| <= ARG_REGS && Addressable(FrameOf(base, m))
    && (forall r: Reg :: Is64(m.regs[r]))
    && (forall i: nat :: i < |f.args| && i < ARG_REGS ==> TypeAt(f, f.args[i]).Holds(m.regs[Arg(i)]))
  }

  ghost predicate SameArgs(m: Machine, m': Machine) {
    forall i: nat :: i < ARG_REGS ==> m'.regs[Arg(i)] == m.regs[Arg(i)]
  }

  /** The code sets up the frame and takes over the first `k` arguments. */
  ghost predicate Enters(f: Fun, base: Frame, code: seq<Asm>, k: nat)
    requires k <= |f.args| && k <= ARG_REGS
  {
    Plain(code) && forall m: Machine {:trigger Exec(code, m)} :: Called(f, base, m) ==>
      Related(f, FrameOf(base, m), Passed(f, m, k), Exec(code, m)) && SameArgs(m, Exec(code, m))
  }

  /** Saves the return address and the frame pointer of the caller, and sets the frame pointer. */
  const SAVING := [St(8, RA, SP, -8), St(8, FP, SP, -16), AddiD(FP, SP, 0)]

  ghost predicate MakesRoom(code: seq<Asm>, size: nat) {
    Plain(code) && forall m: Machine {:trigger Exec(code, m)} :: Is64(m.regs[SP] - size) ==>
      exists x :: Exec(code, m) == SetReg(SetReg(m, T0, x), SP, m.regs[SP] - size)
  }

  lemma StoreWord(m: Machine, rd: Reg, rj: Reg, imm: int)
    requires rd != ZERO && rj != ZERO && Is64(m.regs[rj] + imm)
    ensures Exec1(St(8, rd, rj, imm), m) == m.(mem := Write(m.mem, m.regs[rj] + imm, 8, m.regs[rd]))
  {
    hide Write;
  }

  lemma LoadWord(m: Machine, rd: Reg, rj: Reg, imm: int)
    requires rd != ZERO && rj != ZERO && Is64(m.regs[rj] + imm)
    ensures Exec1(Ld(8, rd, rj, imm), m) == m.(regs := m.regs[rd := Read(m.mem, m.regs[rj] + imm, 8)])
  {
    hide Read;
  }

  lemma AddWord(m: Machine, rd: Reg, rj: Reg, imm: int)
    requires rd != ZERO && rj != ZERO && Is64(m.regs[rj] + imm)
    ensures Exec1(AddiD(rd, rj, imm), m) == m.(regs := m.regs[rd := m.regs[rj] + imm])
  {
  }

  lemma RoomNear(size: nat)
    requires IsImm12(0 - size)
    ensures MakesRoom([AddiD(SP, SP, 0 - size)], size)
  {
    hide Exec, Exec1;
    forall m: Machine | Is64(m.regs[SP] - size)
      ensures exists x :: Exec([AddiD(SP, SP, 0 - size)], m) == SetReg(SetReg(m, T0, x), SP, m.regs[SP] - size)
    {
      ExecOne(AddiD(SP, SP, 0 - size), m);
      AddWord(m, SP, SP, 0 - size);
      assert SetReg(m, T0, m.regs[T0]) == m;
    }
  }

  lemma RoomFar(code: seq<Asm>, size: nat)
    requires LoadsImm(code, T0, size)
    ensures MakesRoom(code + [Alu(SubD, SP, SP, T0)], size)
  {
    hide Exec;
    assert Plain(code + [Alu(SubD, SP, SP, T0)]);
    forall m: Machine | Is64(m.regs[SP] - size)
      ensures exists x :: Exec(code + [Alu(SubD, SP, SP, T0)], m) == SetReg(SetReg(m, T0, x), SP, m.regs[SP] - size)
    {
      ExecSnoc(code, Alu(SubD, SP, SP, T0), m);
      assert Exec(code, m) == SetReg(m, T0, size);
    }
  }

  lemma ExecThree(i: Asm, j: Asm, k: Asm, m: Machine)
    ensures Exec([i, j, k], m) == Exec1(k, Exec1(j, Exec1(i, m)))
  {
    hide Exec1;
    ExecOne(i, m);
    ExecSnoc([i], j, m);
    assert [i] + [j] == [i, j];
    ExecSnoc([i, j], k, m);
    assert [i, j] + [k] == [i, j, k];
  }

  lemma SavingRuns(m: Machine)
    requires Is64(m.regs[SP]) && Is64(m.regs[SP] - 16)
    ensures Exec(SAVING, m) == Machine(m.regs[FP := m.regs[SP]], Write(Write(m.mem, m.regs[SP] - 8, 8, m.regs[RA]),
                                       m.regs[SP] - 16, 8, m.regs[FP]))
  {
    hide Write, Exec, Exec1;
    var sp := m.regs[SP];
    var m1 := m.(mem := Write(m.mem, sp - 8, 8, m.regs[RA]));
    var m2 := m.(mem := Write(m1.mem, sp - 16, 8, m.regs[FP]));
    ExecThree(St(8, RA, SP, -8), St(8, FP, SP, -16), AddiD(FP, SP, 0), m);
    StoreWord(m, RA, SP, -8);
    StoreWord(m1, FP, SP, -16);
    AddWord(m2, FP, SP, 0);
  }

  /** After saving, both words are where they are looked for, and nothing that the program may touch has changed. */
  lemma SavedNow(f: Fun, fr: Frame, m: Memory)
    requires LaidOut(f, fr) && Is64(fr.caller[RA]) && Is64(fr.caller[FP])
    ensures var m' := Write(Write(m, fr.fp - 8, 8, fr.caller[RA]), fr.fp - 16, 8, fr.caller[FP]);
            Stands(f, fr, State(map[], m), m')
  {
    hide LaidOut, LayoutOf, Read, Write, Fits;
    var a, b := fr.fp - 8, fr.fp - 16;
    var m1 := Write(m, a, 8, fr.caller[RA]);
    Fits8(fr.caller[RA]);
    Fits8(fr.caller[FP]);
    ReadWritten(m, a, 8, fr.caller[RA]);
    ReadElsewhere(m1, b, 8, fr.caller[FP], a, 8);
    ReadWritten(m1, b, 8, fr.caller[FP]);
    forall c | c in LayoutOf(f, fr).user
      ensures Write(m1, b, 8, fr.caller[FP])(c) == m(c)
    {
      if b <= c < fr.fp {
        SavedNotUser(f, fr, c);
        assert false;
      }
      WriteElsewhere(m, a, 8, fr.caller[RA], c);
      WriteElsewhere(m1, b, 8, fr.caller[FP], c);
    }
  }

  lemma FrameEntered(f: Fun, base: Frame, room: seq<Asm>)
    requires LaidOut(f, base) && MakesRoom(room, base.size)
    ensures |f.args| <= ARG_REGS ==> Enters(f, base, SAVING + room, 0)
  {
    hide LaidOut, Stands, Exec, Addressable;
    if |f.args| <= ARG_REGS {
      forall m: Machine | Called(f, base, m)
        ensures Related(f, FrameOf(base, m), Passed(f, m, 0), Exec(SAVING + room, m)) && SameArgs(m, Exec(SAVING + room, m))
      {
        EnteredAt(f, base, room, m);
      }
      PlainSaving();
      PlainConcat(SAVING, room);
    }
  }

  lemma PlainSaving()
    ensures Plain(SAVING)
  {
  }

  lemma EnteredAt(f: Fun, base: Frame, room: seq<Asm>, m: Machine)
    requires LaidOut(f, base) && MakesRoom(room, base.size) && Called(f, base, m)
    ensures Related(f, FrameOf(base, m), Passed(f, m, 0), Exec(SAVING + room, m)) && SameArgs(m, Exec(SAVING + room, m))
  {
    hide LaidOut, Stands, Exec, Write, Plain;
    var fr := FrameOf(base, m);
    AnyCall(f, base, fr);
    RoomToSave(f, fr);
    SavingRuns(m);
    SavedNow(f, fr, m.mem);
    ExecConcat(SAVING, room, m);
  }

  /** One more argument goes to its slot. */
  lemma EntersMore(f: Fun, base: Frame, code: seq<Asm>, k: nat, c: seq<Asm>)
    requires LaidOut(f, base) && k < |f.args| <= ARG_REGS && Enters(f, base, code, k)
    requires f.args[k] in f.types && StoresResult(f, base, c, f.args[k], Arg(k))
    ensures Enters(f, base, code + c, k + 1)
  {
    hide LaidOut, Related, Exec, Addressable, Suits;
    PlainConcat(code, c);
    forall m: Machine | Called(f, base, m)
      ensures Related(f, FrameOf(base, m), Passed(f, m, k + 1), Exec(code + c, m)) && SameArgs(m, Exec(code + c, m))
    {
      ExecConcat(code, c, m);
      AnyCall(f, base, FrameOf(base, m));
      var m1 := Exec(code, m);
      assert Related(f, FrameOf(base, m), Passed(f, m, k), m1);
      assert OnlyScratch(m1, Exec(c, m1));
    }
  }

  // ----- the way out -----

  const LEAVING := [AddiD(SP, FP, 0), Ld(8, RA, SP, -8), Ld(8, FP, SP, -16)]

  /** The return address and everything that belongs to the caller are back. */
  ghost predicate Restored(m: Machine, m': Machine) {
    forall r: Reg :: Kept(r) || r == RA ==> m'.regs[r] == m.regs[r]
  }

  lemma LeavingRuns(m: Machine)
    requires Is64(m.regs[FP]) && Is64(m.regs[FP] - 16)
    ensures var regs := m.regs[SP := m.regs[FP]][RA := Read(m.mem, m.regs[FP] - 8, 8)][FP := Read(m.mem, m.regs[FP] - 16, 8)];
            Exec(LEAVING, m) == Machine(regs, m.mem)
  {
    hide Read, Exec, Exec1;
    var fp := m.regs[FP];
    var m1 := m.(regs := m.regs[SP := fp]);
    var m2 := m.(regs := m1.regs[RA := Read(m.mem, fp - 8, 8)]);
    ExecThree(AddiD(SP, FP, 0), Ld(8, RA, SP, -8), Ld(8, FP, SP, -16), m);
    AddWord(m, SP, FP, 0);
    LoadWord(m1, RA, SP, -8);
    LoadWord(m2, FP, SP, -16);
  }

  lemma Left(f: Fun, base: Frame, m: Machine, s: State, m1: Machine)
    requires LaidOut(f, base) && Called(f, base, m) && Related(f, FrameOf(base, m), s, m1)
    ensures var m' := Exec(LEAVING, m1);
            Restored(m, m') && m'.regs[A0] == m1.regs[A0] && m'.mem == m1.mem
  {
    hide LaidOut, LayoutOf, Exec, Read, Plain;
    AnyCall(f, base, FrameOf(base, m));
    RoomToSave(f, FrameOf(base, m));
    LeavingRuns(m1);
  }

  // ----- the whole call -----

  /** The program enters, goes on with the first block, and after the label of its exit leaves. */
  ghost predicate Framed(f: Fun, base: Frame, prog: seq<Asm>, code: seq<BlockCode>, enter: seq<Asm>) {
    && 0 < |code| && |f.args| <= ARG_REGS && Enters(f, base, enter, |f.args|)
    && Placed(prog, 0, enter) && code[ENTRY].start == |enter|
    && Placed(prog, Find(prog, ExitLabel), [Mark(ExitLabel)] + LEAVING + [JumpReg(RA)])
  }

  /** Called with any arguments, the function follows the IR from its first instruction on, and when the IR returns it
      jumps back to its caller. */
  ghost predicate Serves(f: Fun, base: Frame, prog: seq<Asm>) {
    forall m: Machine, p: seq<Block> {:trigger ServesOn(f, base, prog, m, p)} ::
      Called(f, base, m) ==> ServesOn(f, base, prog, m, p)
  }

  ghost predicate ServesOn(f: Fun, base: Frame, prog: seq<Asm>, m: Machine, p: seq<Block>)
    requires |f.args| <= ARG_REGS
  {
    var fr, start := FrameOf(base, m), Passed(f, m, |f.args|);
    |p| > 0 && (forall i :: 0 <= i < |p| ==> p[i] < |f.blocks|) && RunTo(f, LayoutOf(f, fr), start, p).Some? ==>
      var s := RunTo(f, LayoutOf(f, fr), start, p).value;
      var b := p[|p| - 1];
      && Reaches(f, fr, prog, m, b, s)
      && (Returns(f, fr, b, s) ==> JumpsBack(f, fr, prog, m, b, s))
  }

  ghost predicate Reaches(f: Fun, fr: Frame, prog: seq<Asm>, m: Machine, b: Block, s: State) {
    exists m': Machine :: Leads(prog, Point(0, m), Point(Find(prog, BlockLabel(b)), m')) && Related(f, fr, s, m')
  }

  /** Back to the caller: its registers as they were, the result in $a0, and the memory as the IR leaves it. */
  ghost predicate JumpsBack(f: Fun, fr: Frame, prog: seq<Asm>, m: Machine, b: Block, s: State)
    requires b < |f.blocks| && Returns(f, fr, b, s)
  {
    var s' := ExecBody(f, LayoutOf(f, fr), f.blocks[b].body, s).value;
    var val := f.blocks[b].term.val;
    exists pc: nat, m': Machine ::
      && Leads(prog, Point(0, m), Point(pc, m')) && pc < |prog| && prog[pc] == JumpReg(RA)
      && Restored(m, m') && m'.regs[A0] == (if val.Some? then Eval(s', val.value).value else 0)
      && forall a :: a in LayoutOf(f, fr).user ==> m'.mem(a) == s'.mem(a)
  }

  lemma FramedServes(f: Fun, base: Frame, prog: seq<Asm>, code: seq<BlockCode>, enter: seq<Asm>)
    requires LaidOut(f, base) && Compiled(f, base, prog, code) && Framed(f, base, prog, code, enter)
    ensures Serves(f, base, prog)
  {
    hide LaidOut, Compiled, Framed, ServesOn;
    CompiledFollows(f, base, prog, code);
    forall m: Machine, p: seq<Block> {:trigger ServesOn(f, base, prog, m, p)} | Called(f, base, m)
      ensures ServesOn(f, base, prog, m, p)
    {
      FramedOn(f, base, prog, code, enter, m, p);
    }
  }

  /** The prologue leads to the label of the first block. */
  lemma EnterRuns(f: Fun, base: Frame, prog: seq<Asm>, code: seq<BlockCode>, enter: seq<Asm>, m: Machine)
      returns (m': Machine)
    requires LaidOut(f, base) && Compiled(f, base, prog, code) && Framed(f, base, prog, code, enter) && Called(f, base, m)
    ensures Related(f, FrameOf(base, m), Passed(f, m, |f.args|), m')
    ensures Leads(prog, Point(0, m), Point(Find(prog, BlockLabel(ENTRY)), m'))
  {
    hide LaidOut, Compiled, Called, Related, Leads, Exec, Plain;
    CodePerBlock(f, base, prog, code);
    BlockStart(f, base, prog, code, ENTRY);
    RunPlain(prog, 0, enter, m);
    m' := Exec(enter, m);
  }

  /** The epilogue leads from the label of the exit to the jump back. */
  lemma LeaveRuns(prog: seq<Asm>, m: Machine)
    requires Placed(prog, Find(prog, ExitLabel), [Mark(ExitLabel)] + LEAVING + [JumpReg(RA)])
    ensures var pc := Find(prog, ExitLabel);
            && Leads(prog, Point(pc, m), Point(pc + 1 + |LEAVING|, Exec(LEAVING, m)))
            && pc + 1 + |LEAVING| < |prog| && prog[pc + 1 + |LEAVING|] == JumpReg(RA)
  {
    hide Placed, Leads, Exec, Find;
    var pc := Find(prog, ExitLabel);
    PlacedParts(prog, pc, [Mark(ExitLabel)] + LEAVING, [JumpReg(RA)]);
    PlacedParts(prog, pc, [Mark(ExitLabel)], LEAVING);
    PlacedOne(prog, pc, Mark(ExitLabel));
    PlacedOne(prog, pc + 1 + |LEAVING|, JumpReg(RA));
    PlainLeaving();
    RunPlain(prog, pc + 1, LEAVING, m);
    LeadsStep(prog, Point(pc, m));
    LeadsTrans(prog, Point(pc, m), Point(pc + 1, m), Point(pc + 1 + |LEAVING|, Exec(LEAVING, m)));
  }

  lemma PlainLeaving()
    ensures Plain(LEAVING)
  {
  }

  lemma FramedOn(f: Fun, base: Frame, prog: seq<Asm>, code: seq<BlockCode>, enter: seq<Asm>, m: Machine, p: seq<Block>)
    requires LaidOut(f, base) && Compiled(f, base, prog, code) && Framed(f, base, prog, code, enter) && Called(f, base, m)
    requires Follows(f, base, prog)
    ensures ServesOn(f, base, prog, m, p)
  {
    hide LaidOut, Compiled, Related, Leads, LayoutOf, ExecBody, RunTo, Exec, Placed, Find, Plain, Restored, SameSaved;
    var fr, start := FrameOf(base, m), Passed(f, m, |f.args|);
    var m0 := EnterRuns(f, base, prog, code, enter, m);
    var entry := Point(Find(prog, BlockLabel(ENTRY)), m0);
    assert FollowsOn(f, fr, prog, start, entry.m, p);
    if |p| > 0 && (forall i :: 0 <= i < |p| ==> p[i] < |f.blocks|) && RunTo(f, LayoutOf(f, fr), start, p).Some? {
      var s, b := RunTo(f, LayoutOf(f, fr), start, p).value, p[|p| - 1];
      var m1 :| Leads(prog, entry, Point(Find(prog, BlockLabel(b)), m1)) && Related(f, fr, s, m1);
      LeadsTrans(prog, Point(0, m), entry, Point(Find(prog, BlockLabel(b)), m1));
      if Returns(f, fr, b, s) {
        BackAgain(f, base, prog, m, entry, b, s);
      }
    }
  }

  lemma BackAgain(f: Fun, base: Frame, prog: seq<Asm>, m: Machine, entry: Point, b: Block, s: State)
    requires LaidOut(f, base) && Called(f, base, m) && b < |f.blocks| && Returns(f, FrameOf(base, m), b, s)
    requires Placed(prog, Find(prog, ExitLabel), [Mark(ExitLabel)] + LEAVING + [JumpReg(RA)])
    requires entry.pc == Find(prog, BlockLabel(ENTRY)) && Leads(prog, Point(0, m), entry)
    requires ArrivesWith(f, FrameOf(base, m), prog, entry.m, b, s)
    ensures JumpsBack(f, FrameOf(base, m), prog, m, b, s)
  {
    hide LaidOut, Leads, LayoutOf, ExecBody, Exec, Placed, Find, Called, Related, Restored, SameSaved;
    var fr := FrameOf(base, m);
    var s' := ExecBody(f, LayoutOf(f, fr), f.blocks[b].body, s).value;
    var val := f.blocks[b].term.val;
    var exit := Find(prog, ExitLabel);
    var m1 :| Leads(prog, entry, Point(exit, m1)) && Related(f, fr, s', m1) &&
              m1.regs[A0] == if val.Some? then Eval(s', val.value).value else 0;
    Left(f, base, m, s', m1);
    UserAgrees(f, fr, s', m1);
    LeaveRuns(prog, m1);
    LeadsTrans(prog, Point(0, m), entry, Point(exit, m1));
    LeadsTrans(prog, Point(0, m), Point(exit, m1), Point(exit + 1 + |LEAVING|, Exec(LEAVING, m1)));
  }

  lemma UserAgrees(f: Fun, fr: Frame, s: State, m: Machine)
    requires Related(f, fr, s, m)
    ensures forall a :: a in LayoutOf(f, fr).user ==> m.mem(a) == s.mem(a)
  {
    hide LayoutOf;
  }
}
