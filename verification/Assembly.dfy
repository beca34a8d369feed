/** The emitted instructions, what each does, and runs of straight-line code and of whole programs. */
module Assembly {
  import opened LoongArch

  type Reg = r: nat | r < 32

  const ZERO: Reg := 0
  const RA: Reg := 1
  const TP: Reg := 2
  const SP: Reg := 3
  const A0: Reg := 4
  const T0: Reg := 12
  const T1: Reg := 13
  const T2: Reg := 14
  const T8: Reg := 20
  const RESERVED: Reg := 21
  const FP: Reg := 22

  datatype Label = BlockLabel(b: nat) | EdgeLabel(k: nat) | ExitLabel

  datatype AluOp = AddW | SubW | MulW | DivW | AddD | SubD | MulD | Slt | Sltu | Xor

  datatype Asm =
    | AddiW(rd: Reg, rj: Reg, imm: int)
    | AddiD(rd: Reg, rj: Reg, imm: int)
    | Lu12iW(rd: Reg, imm: int)
    | Ori(rd: Reg, rj: Reg, imm: int)
    | Lu32iD(rd: Reg, imm: int)
    | Lu52iD(rd: Reg, rj: Reg, imm: int)
    | Alu(op: AluOp, rd: Reg, rj: Reg, rk: Reg)
    | Sltui(rd: Reg, rj: Reg, imm: int)
    | BstrpickW(rd: Reg, rj: Reg, msb: nat, lsb: nat)
    | Ld(bytes: nat, rd: Reg, rj: Reg, imm: int)
    | St(bytes: nat, rd: Reg, rj: Reg, imm: int)
    | Jump(target: Label)
    | Bnez(rj: Reg, target: Label)
    | Mark(l: Label)
    | JumpReg(rj: Reg)

  predicate IsImm12(x: int) {
    -0x800 <= x <= 0x7FF
  }

  /** A signed field whose numbers reach up to, not including, `bound`. */
  predicate InField(x: int, bound: nat) {
    0 - bound <= x < bound
  }

  /** The immediate fits its field, and the access is one the machine has. */
  predicate Encodable(i: Asm) {
    match i
    case AddiW(_, _, imm) => InField(imm, 0x800)
    case AddiD(_, _, imm) => InField(imm, 0x800)
    case Lu12iW(_, imm) => InField(imm, 0x8_0000)
    case Ori(_, _, imm) => 0 <= imm < 0x1000
    case Lu32iD(_, imm) => InField(imm, 0x8_0000)
    case Lu52iD(_, _, imm) => InField(imm, 0x800)
    case Sltui(_, _, imm) => InField(imm, 0x800)
    case BstrpickW(_, _, msb, lsb) => lsb <= msb < 32
    case Ld(n, _, _, imm) => n in {1, 4, 8} && InField(imm, 0x800)
    case St(n, _, _, imm) => n in {1, 4, 8} && InField(imm, 0x800)
    case _ => true
  }

  predicate IsJump(i: Asm) {
    i.Jump? || i.Bnez? || i.Mark? || i.JumpReg?
  }

  /** Straight-line code that the assembler accepts. */
  predicate Plain(code: seq<Asm>) {
    forall i :: i in code ==> !IsJump(i) && Encodable(i)
  }

  type RegFile = s: seq<int> | |s| == 32 witness seq(32, i => 0)

  datatype Machine = Machine(regs: RegFile, mem: Memory)

  /** The registers that a function leaves to its caller as they were. */
  predicate Kept(r: Reg) {
    r == TP || r == SP || r >= RESERVED
  }

  /** The zero register reads as zero whatever is written to it. */
  function Get(m: Machine, r: Reg): int {
    if r == ZERO then 0 else m.regs[r]
  }

  function SetReg(m: Machine, rd: Reg, x: int): Machine {
    if rd == ZERO then m else m.(regs := m.regs[rd := x])
  }

  function OrBits(x: int, y: int, n: nat): int
    decreases n
  {
    if n == 0 then 0 else (if x % 2 == 1 || y % 2 == 1 then 1 else 0) + 2 * OrBits(x / 2, y / 2, n - 1)
  }

  lemma {:induction false} OrWithZero(y: int, n: nat)
    requires 0 <= y < Power2(n)
    ensures OrBits(0, y, n) == y
    decreases n
  {
    if n > 0 {
      OrWithZero(y / 2, n - 1);
    }
  }

  function AluResult(op: AluOp, x: int, y: int): int {
    match op
    case AddW => Wrap32(x + y)
    case SubW => Wrap32(x - y)
    case MulW => Wrap32(x * y)
    case DivW => Wrap32(Quotient(x, y))
    case AddD => Wrap64(x + y)
    case SubD => Wrap64(x - y)
    case MulD => Wrap64(x * y)
    case Slt => if x < y then 1 else 0
    case Sltu => if x % TWO_64 < y % TWO_64 then 1 else 0
    case Xor => Xor64(x, y)
  }

  function Address(m: Machine, rj: Reg, imm: int): int {
    Wrap64(Get(m, rj) + imm)
  }

  /** The effect of an instruction that does not jump. */
  function Exec1(i: Asm, m: Machine): Machine {
    match i
    case AddiW(rd, rj, imm) => SetReg(m, rd, Wrap32(Get(m, rj) + imm))
    case AddiD(rd, rj, imm) => SetReg(m, rd, Wrap64(Get(m, rj) + imm))
    case Lu12iW(rd, imm) => SetReg(m, rd, Wrap32(imm * 0x1000))
    case Ori(rd, rj, imm) =>
      var low := Get(m, rj) % 0x1000;
      SetReg(m, rd, Get(m, rj) - low + OrBits(low, imm, 12))
    case Lu32iD(rd, imm) => SetReg(m, rd, imm * TWO_32 + Get(m, rd) % TWO_32)
    case Lu52iD(rd, rj, imm) => SetReg(m, rd, imm * TWO_52 + Get(m, rj) % TWO_52)
    case Alu(op, rd, rj, rk) => SetReg(m, rd, AluResult(op, Get(m, rj), Get(m, rk)))
    case Sltui(rd, rj, imm) => SetReg(m, rd, if Get(m, rj) % TWO_64 < imm % TWO_64 then 1 else 0)
    case BstrpickW(rd, rj, msb, lsb) =>
      SetReg(m, rd, Wrap32(if lsb <= msb then Get(m, rj) / Power2(lsb) % Power2(msb - lsb + 1) else 0))
    case Ld(n, rd, rj, imm) => SetReg(m, rd, if n > 0 then Read(m.mem, Address(m, rj, imm), n) else 0)
    case St(n, rd, rj, imm) => if n > 0 then m.(mem := Write(m.mem, Address(m, rj, imm), n, Get(m, rd))) else m
    case Jump(_) => m
    case Bnez(_, _) => m
    case Mark(_) => m
    case JumpReg(_) => m
  }

  function Exec(code: seq<Asm>, m: Machine): Machine {
    if code == [] then m else Exec1(code[|code| - 1], Exec(code[..|code| - 1], m))
  }

  lemma {:induction false} ExecConcat(a: seq<Asm>, b: seq<Asm>, m: Machine)
    ensures Exec(a + b, m) == Exec(b, Exec(a, m))
    decreases |b|
  {
    if b == [] {
      assert a + b == a;
    } else {
      assert (a + b)[..|a + b| - 1] == a + b[..|b| - 1];
      ExecConcat(a, b[..|b| - 1], m);
    }
  }

  lemma ExecSnoc(a: seq<Asm>, i: Asm, m: Machine)
    ensures Exec(a + [i], m) == Exec1(i, Exec(a, m))
  {
    assert (a + [i])[..|a|] == a;
  }

  lemma ExecOne(i: Asm, m: Machine)
    ensures Exec([i], m) == Exec1(i, m)
  {
    assert Exec([], m) == m;
    assert [i][..0] == [];
  }

  // ----- whole programs -----

  function Find(prog: seq<Asm>, l: Label): (pc: nat)
    ensures pc <= |prog| && (pc < |prog| ==> prog[pc] == Mark(l)) && Mark(l) !in prog[..pc]
    ensures pc == |prog| ==> Mark(l) !in prog
  {
    if prog == [] then 0
    else
      var front := prog[..|prog| - 1];
      var pc := Find(front, l);
      assert prog == front + [prog[|prog| - 1]];
      assert prog[..pc] == front[..pc];
      if pc < |front| then pc else if prog[|prog| - 1] == Mark(l) then |prog| - 1 else |prog|
  }

  datatype Point = Point(pc: nat, m: Machine)

  /** One step of a running program. Where it has come to its end, or to a jump out of it, it stays. */
  function Step(prog: seq<Asm>, p: Point): Point {
    if p.pc >= |prog| then p
    else match prog[p.pc]
         case Jump(l) => Point(Find(prog, l), p.m)
         case JumpReg(_) => p
         case Bnez(rj, l) => if Get(p.m, rj) != 0 then Point(Find(prog, l), p.m) else Point(p.pc + 1, p.m)
         case i => Point(p.pc + 1, Exec1(i, p.m))
  }

  function Steps(prog: seq<Asm>, p: Point, n: nat): Point {
    if n == 0 then p else Step(prog, Steps(prog, p, n - 1))
  }

  ghost predicate Leads(prog: seq<Asm>, p: Point, q: Point) {
    exists n: nat :: Steps(prog, p, n) == q
  }

  lemma {:induction false} StepsAdd(prog: seq<Asm>, p: Point, n: nat, k: nat)
    ensures Steps(prog, p, n + k) == Steps(prog, Steps(prog, p, n), k)
    decreases k
  {
    if k > 0 {
      StepsAdd(prog, p, n, k - 1);
    }
  }

  lemma LeadsTrans(prog: seq<Asm>, p: Point, q: Point, r: Point)
    requires Leads(prog, p, q) && Leads(prog, q, r)
    ensures Leads(prog, p, r)
  {
    var n: nat :| Steps(prog, p, n) == q;
    var k: nat :| Steps(prog, q, k) == r;
    StepsAdd(prog, p, n, k);
  }

  lemma LeadsStep(prog: seq<Asm>, p: Point)
    ensures Leads(prog, p, Step(prog, p))
  {
    assert Steps(prog, p, 1) == Step(prog, Steps(prog, p, 0));
  }

  lemma LeadsSelf(prog: seq<Asm>, p: Point)
    ensures Leads(prog, p, p)
  {
    assert Steps(prog, p, 0) == p;
  }

  /** `code` stands at position `pc` of the program. */
  ghost predicate Placed(prog: seq<Asm>, pc: nat, code: seq<Asm>) {
    pc + |code| <= |prog| && prog[pc..pc + |code|] == code
  }

  /** Straight-line code inside a program runs through to its end. */
  lemma {:induction false} RunPlain(prog: seq<Asm>, pc: nat, code: seq<Asm>, m: Machine)
    requires Placed(prog, pc, code) && Plain(code)
    ensures Leads(prog, Point(pc, m), Point(pc + |code|, Exec(code, m)))
    decreases |code|
  {
    if code == [] {
      LeadsSelf(prog, Point(pc, m));
    } else {
      var front, last := code[..|code| - 1], code[|code| - 1];
      assert prog[pc..pc + |front|] == prog[pc..pc + |code|][..|front|];
      assert last == prog[pc..pc + |code|][|front|] == prog[pc + |front|];
      RunPlain(prog, pc, front, m);
      assert last in code;
      LeadsStep(prog, Point(pc + |front|, Exec(front, m)));
      LeadsTrans(prog, Point(pc, m), Point(pc + |front|, Exec(front, m)), Point(pc + |code|, Exec(code, m)));
    }
  }
}
