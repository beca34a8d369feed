/** Whole functions: the emitted program goes where the IR goes, with the frame standing for the IR state. */
module Simulation {
  import opened Graphs
  import opened Basics
  import opened LoongArch
  import opened Assembly
  import opened StackIr
  import opened Frames
  import opened Emission
  import opened PhiCopies

  /** The parts of a terminator's code. */
  datatype TermCode =
    | RetCode(load: seq<Asm>)
    | BrCode(copies: seq<Asm>)
    | CondCode(load: seq<Asm>, edge: nat, onFalse: seq<Asm>, onTrue: seq<Asm>)

  function TermText(t: Term, c: TermCode): seq<Asm> {
    match (t, c)
    case (Ret(_), RetCode(load)) => load + [Jump(ExitLabel)]
    case (Br(b), BrCode(copies)) => copies + [Jump(BlockLabel(b))]
    case (CondBr(_, b, e), CondCode(load, k, onFalse, onTrue)) =>
      load + [Bnez(T0, EdgeLabel(k))] + onFalse + [Jump(BlockLabel(e))] + [Mark(EdgeLabel(k))] + onTrue +
      [Jump(BlockLabel(b))]
    case _ => []
  }

  ghost predicate TermSound(f: Fun, base: Frame, p: Block, t: Term, c: TermCode) {
    match (t, c)
    case (Ret(val), RetCode(load)) =>
      if val.Some? then LoadsOperand(f, base, load, val.value, A0) else LoadsImm(load, A0, 0)
    case (Br(b), BrCode(copies)) => b < |f.blocks| && CopiesEdge(f, base, copies, p, b)
    case (CondBr(v, b, e), CondCode(load, _, onFalse, onTrue)) =>
      && b < |f.blocks| && e < |f.blocks|
      && LoadsOperand(f, base, load, v, T0) && CopiesEdge(f, base, onFalse, p, e) && CopiesEdge(f, base, onTrue, p, b)
    case _ => false
  }

  /** The code does what the instructions do, one after the other. */
  ghost predicate ImplementsAll(f: Fun, base: Frame, code: seq<Asm>, body: seq<Ins>) {
    Plain(code) && forall fr, s, m {:trigger Related(f, fr, s, m)} ::
      Suits(f, base, fr) && Related(f, fr, s, m) && ExecBody(f, LayoutOf(f, fr), body, s).Some? ==>
      Related(f, fr, ExecBody(f, LayoutOf(f, fr), body, s).value, Exec(code, m))
  }

  lemma ImplementsNone(f: Fun, base: Frame)
    ensures ImplementsAll(f, base, [], [])
  {
  }

  lemma ImplementsMore(f: Fun, base: Frame, code: seq<Asm>, body: seq<Ins>, c: seq<Asm>, i: Ins)
    requires ImplementsAll(f, base, code, body) && Implements(f, base, c, i)
    ensures ImplementsAll(f, base, code + c, body + [i])
  {
    hide Suits, Related, LayoutOf, ExecIns;
    PlainConcat(code, c);
    assert (body + [i])[..|body|] == body;
    forall fr, s, m | Suits(f, base, fr) && Related(f, fr, s, m) && ExecBody(f, LayoutOf(f, fr), body + [i], s).Some?
      ensures Related(f, fr, ExecBody(f, LayoutOf(f, fr), body + [i], s).value, Exec(code + c, m))
    {
      ExecConcat(code, c, m);
      var before := ExecBody(f, LayoutOf(f, fr), body, s);
      assert before.Some?;
      assert Related(f, fr, before.value, Exec(code, m));
    }
  }

  /** The code of one block, and where it starts. */
  datatype BlockCode = BlockCode(start: nat, body: seq<Asm>, term: TermCode)

  function BlockText(f: Fun, b: Block, c: BlockCode): seq<Asm>
    requires b < |f.blocks|
  {
    [Mark(BlockLabel(b))] + c.body + TermText(f.blocks[b].term, c.term)
  }

  ghost predicate BlockSound(f: Fun, base: Frame, b: Block, c: BlockCode)
    requires b < |f.blocks|
  {
    ImplementsAll(f, base, c.body, f.blocks[b].body) && TermSound(f, base, b, f.blocks[b].term, c.term)
  }

  /** No label occurs twice. */
  ghost predicate MarksDistinct(prog: seq<Asm>) {
    forall i, j :: 0 <= i < j < |prog| && prog[i].Mark? ==> prog[i] != prog[j]
  }

  /** The program consists of sound code for every block, under labels that do not clash. */
  ghost predicate Compiled(f: Fun, base: Frame, prog: seq<Asm>, code: seq<BlockCode>) {
    && |code| == |f.blocks| && MarksDistinct(prog) && Mark(ExitLabel) in prog
    && (forall b: Block :: b < |f.blocks| ==>
          BlockSound(f, base, b, code[b]) && Placed(prog, code[b].start, BlockText(f, b, code[b])))
  }

  lemma FindUnique(prog: seq<Asm>, l: Label, pc: nat)
    requires MarksDistinct(prog) && pc < |prog| && prog[pc] == Mark(l)
    ensures Find(prog, l) == pc
  {
    var q := Find(prog, l);
    if pc < q {
      InPrefix(prog, q, pc);
    }
  }

  lemma InPrefix(prog: seq<Asm>, q: nat, pc: nat)
    requires pc < q <= |prog|
    ensures prog[pc] in prog[..q]
  {
    assert prog[..q][pc] == prog[pc];
  }

  lemma PlacedParts(prog: seq<Asm>, pc: nat, a: seq<Asm>, b: seq<Asm>)
    requires Placed(prog, pc, a + b)
    ensures Placed(prog, pc, a) && Placed(prog, pc + |a|, b)
  {
    assert prog[pc..pc + |a|] == prog[pc..pc + |a + b|][..|a|];
    assert prog[pc + |a|..pc + |a| + |b|] == prog[pc..pc + |a + b|][|a|..];
  }

  lemma BlockStart(f: Fun, base: Frame, prog: seq<Asm>, code: seq<BlockCode>, b: Block)
    requires Compiled(f, base, prog, code) && b < |f.blocks|
    ensures Find(prog, BlockLabel(b)) == code[b].start
  {
    hide BlockSound;
    var text := BlockText(f, b, code[b]);
    assert Placed(prog, code[b].start, text);
    assert text[0] == Mark(BlockLabel(b));
    assert prog[code[b].start..code[b].start + |text|][0] == Mark(BlockLabel(b));
    FindUnique(prog, BlockLabel(b), code[b].start);
  }

  /** From the label of a block to its terminator. */
  lemma BodyRuns(f: Fun, base: Frame, fr: Frame, prog: seq<Asm>, code: seq<BlockCode>, b: Block, s: State, m: Machine)
      returns (m': Machine)
    requires Compiled(f, base, prog, code) && b < |f.blocks| && Suits(f, base, fr) && Related(f, fr, s, m)
    requires ExecBody(f, LayoutOf(f, fr), f.blocks[b].body, s).Some?
    ensures Related(f, fr, ExecBody(f, LayoutOf(f, fr), f.blocks[b].body, s).value, m')
    ensures Leads(prog, Point(code[b].start, m), Point(code[b].start + 1 + |code[b].body|, m'))
    ensures Placed(prog, code[b].start + 1 + |code[b].body|, TermText(f.blocks[b].term, code[b].term))
    ensures TermSound(f, base, b, f.blocks[b].term, code[b].term)
  {
    hide Suits, Related, MarksDistinct, TermText, TermSound, ExecBody, LayoutOf, Leads;
    var c := code[b];
    assert BlockSound(f, base, b, c) && Placed(prog, c.start, BlockText(f, b, c));
    var mark := [Mark(BlockLabel(b))];
    PlacedParts(prog, c.start, mark + c.body, TermText(f.blocks[b].term, c.term));
    PlacedParts(prog, c.start, mark, c.body);
    m' := Exec(c.body, m);
    assert prog[c.start..c.start + 1][0] == prog[c.start];
    LeadsStep(prog, Point(c.start, m));
    RunPlain(prog, c.start + 1, c.body, m);
    LeadsTrans(prog, Point(c.start, m), Point(c.start + 1, m), Point(c.start + 1 + |c.body|, m'));
  }

  /** The copies of an edge and the jump after them. */
  lemma EdgeRuns(f: Fun, base: Frame, fr: Frame, prog: seq<Asm>, code: seq<BlockCode>, p: Block, b: Block,
                 pc: nat, copies: seq<Asm>, s: State, m: Machine) returns (m': Machine)
    requires Compiled(f, base, prog, code) && b < |f.blocks| && Suits(f, base, fr) && Related(f, fr, s, m)
    requires CopiesEdge(f, base, copies, p, b) && Cross(f, p, b, s).Some?
    requires Placed(prog, pc, copies + [Jump(BlockLabel(b))])
    ensures Related(f, fr, Cross(f, p, b, s).value, m')
    ensures Leads(prog, Point(pc, m), Point(code[b].start, m'))
  {
    hide Suits, Related, MarksDistinct, Compiled, Leads, OnlyPhisChange, Cross;
    var jump := [Jump(BlockLabel(b))];
    PlacedParts(prog, pc, copies, jump);
    m' := Exec(copies, m);
    RunPlain(prog, pc, copies, m);
    assert prog[pc + |copies|..pc + |copies| + 1][0] == prog[pc + |copies|];
    CodePerBlock(f, base, prog, code);
    BlockStart(f, base, prog, code, b);
    LeadsStep(prog, Point(pc + |copies|, m'));
    LeadsTrans(prog, Point(pc, m), Point(pc + |copies|, m'), Point(code[b].start, m'));
  }

  /** A branch goes to the block that the IR goes to, its phis assigned. */
  lemma BranchRuns(f: Fun, base: Frame, fr: Frame, prog: seq<Asm>, code: seq<BlockCode>, p: Block, b: Block,
                   pc: nat, s: State, m: Machine) returns (m': Machine)
    requires Compiled(f, base, prog, code) && p < |f.blocks| && b < |f.blocks|
    requires Suits(f, base, fr) && Related(f, fr, s, m)
    requires Target(f.blocks[p].term, s) == Some(b) && Cross(f, p, b, s).Some?
    requires TermSound(f, base, p, f.blocks[p].term, code[p].term)
    requires Placed(prog, pc, TermText(f.blocks[p].term, code[p].term))
    ensures Related(f, fr, Cross(f, p, b, s).value, m')
    ensures Leads(prog, Point(pc, m), Point(code[b].start, m'))
  {
    hide Suits, Related, MarksDistinct, Compiled, Leads, CopiesEdge, LoadsOperand, Cross, Placed;
    CodePerBlock(f, base, prog, code);
    var t, c := f.blocks[p].term, code[p].term;
    match t {
      case Br(_) =>
        m' := EdgeRuns(f, base, fr, prog, code, p, b, pc, c.copies, s, m);
      case CondBr(v, yes, no) =>
        m' := CondRuns(f, base, fr, prog, code, p, v, yes, no, c, pc, s, m);
    }
  }

  lemma CondRuns(f: Fun, base: Frame, fr: Frame, prog: seq<Asm>, code: seq<BlockCode>, p: Block, v: Operand,
                 yes: Block, no: Block, c: TermCode, pc: nat, s: State, m: Machine) returns (m': Machine)
    requires Compiled(f, base, prog, code) && p < |f.blocks| && Suits(f, base, fr) && Related(f, fr, s, m)
    requires c.CondCode? && TermSound(f, base, p, CondBr(v, yes, no), c) && Eval(s, v).Some?
    requires Placed(prog, pc, TermText(CondBr(v, yes, no), c))
    requires Cross(f, p, if Eval(s, v).value != 0 then yes else no, s).Some?
    ensures var b := if Eval(s, v).value != 0 then yes else no;
            Related(f, fr, Cross(f, p, b, s).value, m') && Leads(prog, Point(pc, m), Point(code[b].start, m'))
  {
    hide Suits, Related, Compiled, Leads, CopiesEdge, Cross, Placed, MarksDistinct, Exec, Stands;
    CodePerBlock(f, base, prog, code);
    var q1 := pc + |c.load|;
    var q2 := q1 + 1;
    var q3 := q2 + |c.onFalse| + 1;
    CondPlaced(prog, pc, v, yes, no, c);
    var m1 := Exec(c.load, m);
    RunPlain(prog, pc, c.load, m);
    var x := Eval(s, v).value;
    assert Loads(c.load, m, T0, x);
    LoadKeeps(f, fr, s, c.load, m, T0, x);
    LeadsStep(prog, Point(q1, m1));
    LeadsTrans(prog, Point(pc, m), Point(q1, m1), Step(prog, Point(q1, m1)));
    if x != 0 {
      DistinctMarks(f, base, prog, code);
      FindUnique(prog, EdgeLabel(c.edge), q3);
      LeadsStep(prog, Point(q3, m1));
      LeadsTrans(prog, Point(pc, m), Point(q3, m1), Point(q3 + 1, m1));
      m' := EdgeRuns(f, base, fr, prog, code, p, yes, q3 + 1, c.onTrue, s, m1);
      LeadsTrans(prog, Point(pc, m), Point(q3 + 1, m1), Point(code[yes].start, m'));
    } else {
      m' := EdgeRuns(f, base, fr, prog, code, p, no, q2, c.onFalse, s, m1);
      LeadsTrans(prog, Point(pc, m), Point(q2, m1), Point(code[no].start, m'));
    }
  }

  lemma DistinctMarks(f: Fun, base: Frame, prog: seq<Asm>, code: seq<BlockCode>)
    requires Compiled(f, base, prog, code)
    ensures MarksDistinct(prog)
  {
  }

  /** Where the parts of a conditional branch lie. */
  lemma CondPlaced(prog: seq<Asm>, pc: nat, v: Operand, yes: Block, no: Block, c: TermCode)
    requires c.CondCode? && Placed(prog, pc, TermText(CondBr(v, yes, no), c))
    ensures var q1 := pc + |c.load|;
            var q2 := q1 + 1;
            var q3 := q2 + |c.onFalse| + 1;
            && Placed(prog, pc, c.load) && q1 < |prog| && prog[q1] == Bnez(T0, EdgeLabel(c.edge))
            && Placed(prog, q2, c.onFalse + [Jump(BlockLabel(no))])
            && q3 < |prog| && prog[q3] == Mark(EdgeLabel(c.edge))
            && Placed(prog, q3 + 1, c.onTrue + [Jump(BlockLabel(yes))])
  {
    hide Placed, TermText;
    var test, falseJump, mark, trueJump :=
      [Bnez(T0, EdgeLabel(c.edge))], [Jump(BlockLabel(no))], [Mark(EdgeLabel(c.edge))], [Jump(BlockLabel(yes))];
    var onFalse, onTrue := c.onFalse + falseJump, c.onTrue + trueJump;
    CondText(v, yes, no, c);
    PlacedParts(prog, pc, c.load, test + (onFalse + (mark + onTrue)));
    PlacedParts(prog, pc + |c.load|, test, onFalse + (mark + onTrue));
    PlacedParts(prog, pc + |c.load| + 1, onFalse, mark + onTrue);
    PlacedParts(prog, pc + |c.load| + 1 + |onFalse|, mark, onTrue);
    PlacedOne(prog, pc + |c.load|, test[0]);
    PlacedOne(prog, pc + |c.load| + 1 + |onFalse|, mark[0]);
  }

  lemma CondText(v: Operand, yes: Block, no: Block, c: TermCode)
    requires c.CondCode?
    ensures TermText(CondBr(v, yes, no), c) ==
            c.load + ([Bnez(T0, EdgeLabel(c.edge))] + ((c.onFalse + [Jump(BlockLabel(no))]) +
                      ([Mark(EdgeLabel(c.edge))] + (c.onTrue + [Jump(BlockLabel(yes))]))))
  {
  }

  lemma PlacedOne(prog: seq<Asm>, pc: nat, i: Asm)
    requires Placed(prog, pc, [i])
    ensures pc < |prog| && prog[pc] == i
  {
    assert prog[pc..pc + 1][0] == prog[pc];
  }

  /** The words that the epilogue will load are the same in both memories. */
  ghost predicate SameSaved(fr: Frame, m: Memory, m': Memory) {
    Read(m', fr.fp - 8, 8) == Read(m, fr.fp - 8, 8) && Read(m', fr.fp - 16, 8) == Read(m, fr.fp - 16, 8)
  }

  /** On every path the IR takes, the program gets to the label of the path's last block, and the frame then stands
      for the IR state. */
  lemma {:induction false} ProgramFollows(f: Fun, base: Frame, fr: Frame, prog: seq<Asm>, code: seq<BlockCode>,
                                          start: State, m: Machine, p: seq<Block>) returns (m': Machine)
    requires Compiled(f, base, prog, code) && Suits(f, base, fr) && Related(f, fr, start, m)
    requires |p| > 0 && (forall i :: 0 <= i < |p| ==> p[i] < |f.blocks|)
    requires RunTo(f, LayoutOf(f, fr), start, p).Some?
    ensures Related(f, fr, RunTo(f, LayoutOf(f, fr), start, p).value, m') && SameSaved(fr, m.mem, m'.mem)
    ensures Leads(prog, Point(Find(prog, BlockLabel(ENTRY)), m), Point(Find(prog, BlockLabel(p[|p| - 1])), m'))
    decreases |p|
  {
    hide Suits, Related, Compiled, Leads, LayoutOf, ExecBody, Cross, Target, TermSound, TermText, Placed, SameSaved;
    if |p| == 1 {
      m' := m;
      LeadsSelf(prog, Point(Find(prog, BlockLabel(ENTRY)), m));
    } else {
      var a, b := p[|p| - 2], p[|p| - 1];
      var s := RunTo(f, LayoutOf(f, fr), start, p[..|p| - 1]).value;
      var m1 := ProgramFollows(f, base, fr, prog, code, start, m, p[..|p| - 1]);
      CodePerBlock(f, base, prog, code);
      BlockStart(f, base, prog, code, a);
      BlockStart(f, base, prog, code, b);
      var m2 := BodyRuns(f, base, fr, prog, code, a, s, m1);
      var s' := ExecBody(f, LayoutOf(f, fr), f.blocks[a].body, s).value;
      var q := code[a].start + 1 + |code[a].body|;
      m' := BranchRuns(f, base, fr, prog, code, a, b, q, s', m2);
      LeadsTrans(prog, Point(code[a].start, m1), Point(q, m2), Point(code[b].start, m'));
      LeadsTrans(prog, Point(Find(prog, BlockLabel(ENTRY)), m), Point(code[a].start, m1), Point(code[b].start, m'));
    }
    SavedStays(f, fr, start, m, RunTo(f, LayoutOf(f, fr), start, p).value, m');
  }

  lemma CodePerBlock(f: Fun, base: Frame, prog: seq<Asm>, code: seq<BlockCode>)
    requires Compiled(f, base, prog, code)
    ensures |code| == |f.blocks|
  {
  }

  /** When the IR returns, the program reaches its exit with the result in $a0. */
  lemma ProgramReturns(f: Fun, base: Frame, fr: Frame, prog: seq<Asm>, code: seq<BlockCode>,
                       start: State, m: Machine, p: seq<Block>, s: State) returns (m': Machine)
    requires Compiled(f, base, prog, code) && Suits(f, base, fr) && Related(f, fr, start, m)
    requires |p| > 0 && (forall i :: 0 <= i < |p| ==> p[i] < |f.blocks|)
    requires RunTo(f, LayoutOf(f, fr), start, p).Some?
    requires var b := p[|p| - 1];
             && ExecBody(f, LayoutOf(f, fr), f.blocks[b].body, RunTo(f, LayoutOf(f, fr), start, p).value) == Some(s)
             && f.blocks[b].term.Ret? && (f.blocks[b].term.val.Some? ==> Eval(s, f.blocks[b].term.val.value).Some?)
    ensures Leads(prog, Point(Find(prog, BlockLabel(ENTRY)), m), Point(Find(prog, ExitLabel), m'))
    ensures Related(f, fr, s, m') && SameSaved(fr, m.mem, m'.mem)
    ensures var t := f.blocks[p[|p| - 1]].term;
            m'.regs[A0] == if t.val.Some? then Eval(s, t.val.value).value else 0
  {
    hide Suits, Related, Compiled, Leads, LayoutOf, ExecBody, RunTo, Placed, SameSaved;
    var b := p[|p| - 1];
    var m1 := ProgramFollows(f, base, fr, prog, code, start, m, p);
    CodePerBlock(f, base, prog, code);
    BlockStart(f, base, prog, code, b);
    var m2 := BodyRuns(f, base, fr, prog, code, b, RunTo(f, LayoutOf(f, fr), start, p).value, m1);
    var q := code[b].start + 1 + |code[b].body|;
    m' := ReturnRuns(f, base, fr, prog, f.blocks[b].term, code[b].term.load, q, s, m2);
    LeadsTrans(prog, Point(code[b].start, m1), Point(q, m2), Point(Find(prog, ExitLabel), m'));
    LeadsTrans(prog, Point(Find(prog, BlockLabel(ENTRY)), m), Point(code[b].start, m1), Point(Find(prog, ExitLabel), m'));
    SavedStays(f, fr, start, m, s, m');
  }

  lemma ReturnRuns(f: Fun, base: Frame, fr: Frame, prog: seq<Asm>, t: Term, load: seq<Asm>, pc: nat, s: State,
                   m: Machine)
      returns (m': Machine)
    requires Suits(f, base, fr) && Related(f, fr, s, m) && t.Ret? && (t.val.Some? ==> Eval(s, t.val.value).Some?)
    requires if t.val.Some? then LoadsOperand(f, base, load, t.val.value, A0) else LoadsImm(load, A0, 0)
    requires Placed(prog, pc, load + [Jump(ExitLabel)])
    ensures Leads(prog, Point(pc, m), Point(Find(prog, ExitLabel), m')) && Related(f, fr, s, m')
    ensures m'.regs[A0] == if t.val.Some? then Eval(s, t.val.value).value else 0
  {
    hide Suits, Related, Leads, Placed, Exec;
    var x := if t.val.Some? then Eval(s, t.val.value).value else 0;
    PlacedParts(prog, pc, load, [Jump(ExitLabel)]);
    PlacedOne(prog, pc + |load|, Jump(ExitLabel));
    if t.val.None? {
      ImmLoads(load, m, A0, 0);
    }
    assert Loads(load, m, A0, x);
    LoadKeeps(f, fr, s, load, m, A0, x);
    m' := Exec(load, m);
    RunPlain(prog, pc, load, m);
    LeadsStep(prog, Point(pc + |load|, m'));
    LeadsTrans(prog, Point(pc, m), Point(pc + |load|, m'), Point(Find(prog, ExitLabel), m'));
  }

  /** What is saved below the frame pointer stays as it is from one state to any other. */
  lemma SavedStays(f: Fun, fr: Frame, s: State, m: Machine, s': State, m': Machine)
    requires Related(f, fr, s, m) && Related(f, fr, s', m')
    ensures SameSaved(fr, m.mem, m'.mem)
  {
    hide LayoutOf, Read;
  }

  /** The frame tables serve for any call that finds room for the frame. */
  lemma AnyCall(f: Fun, base: Frame, fr: Frame)
    requires LaidOut(f, base) && SameTables(base, fr) && Addressable(fr)
    ensures Suits(f, base, fr)
  {
    hide IsOwner;
    forall o | IsOwner(f, o)
      ensures Inside(f, fr, o)
    {
      assert Inside(f, base, o);
    }
    forall o, o' | IsOwner(f, o) && IsOwner(f, o') && o != o'
      ensures NoOverlap(f, fr, o, o')
    {
      assert NoOverlap(f, base, o, o');
    }
  }
}
