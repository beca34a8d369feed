/** The integer and pointer part of the IR, as the stack code generator sees it, and what running it means.

    Addresses are concrete: a layout says where each allocation lies and which addresses the program may touch. A
    state in which the program would read something undefined, leave its memory or divide illegally is stuck. */
module StackIr {
  import opened Graphs
  import opened Basics
  import opened LoongArch

  type Id = nat

  datatype Ty = I1 | I32 | Ptr(elem: Ty) | Array(elem: Ty, count: nat) {
    function Size(): nat {
      match this
      case I1 => 1
      case I32 => 4
      case Ptr(_) => 8
      case Array(elem, count) => elem.Size() * count
    }

    predicate Scalar() {
      !Array?
    }

    /** The numbers that stand for values of a scalar type. */
    predicate Holds(x: int) {
      match this
      case I1 => 0 <= x <= 1
      case I32 => Is32(x)
      case Ptr(_) => Is64(x)
      case Array(_, _) => false
    }
  }

  datatype Operand = Undef(ty: Ty) | ConstInt(c: int, ty: Ty) | Var(id: Id)

  datatype BinOp = Add | Sub | Mul | SDiv
  datatype Cmp = Eq | Ne | Lt | Gt | Le | Ge

  datatype Ins =
    | Binary(id: Id, op: BinOp, l: Operand, r: Operand)
    | Icmp(id: Id, cmp: Cmp, l: Operand, r: Operand)
    | Zext(id: Id, v: Operand)
    | Load(id: Id, ty: Ty, ptr: Operand)
    | Store(val: Operand, ptr: Operand)
    | Alloca(id: Id, elem: Ty)
    | Gep(id: Id, base: Operand, indices: seq<Operand>)

  datatype Phi = Phi(id: Id, ty: Ty, incoming: seq<(Operand, Block)>)

  datatype Term = Ret(val: Option<Operand>) | Br(t: Block) | CondBr(c: Operand, t: Block, f: Block)

  datatype Code = Code(phis: seq<Phi>, body: seq<Ins>, term: Term)

  datatype Fun = Fun(args: seq<Id>, blocks: seq<Code>, types: map<Id, Ty>)

  // ----- typing -----

  predicate HasType(f: Fun, o: Operand, ty: Ty) {
    match o
    case Undef(t) => t == ty && ty.Scalar()
    case ConstInt(c, t) => t == ty && (t == I1 || t == I32) && ty.Holds(c)
    case Var(id) => id in f.types && f.types[id] == ty && ty.Scalar()
  }

  predicate HasSomeType(f: Fun, o: Operand) {
    HasType(f, o, TypeOf(f, o))
  }

  function TypeOf(f: Fun, o: Operand): Ty {
    match o
    case Undef(t) => t
    case ConstInt(_, t) => t
    case Var(id) => if id in f.types then f.types[id] else I32
  }

  predicate Defines(f: Fun, id: Id, ty: Ty) {
    id in f.types && f.types[id] == ty && ty.Scalar()
  }

  /** The types that the indices of an address computation step through. */
  predicate IndexTypes(f: Fun, ty: Ty, indices: seq<Operand>) {
    indices == [] ||
    (HasType(f, indices[0], I32) && ty.Size() < TWO_31 &&
     (|indices| > 1 ==> ty.Array? && IndexTypes(f, ty.elem, indices[1..])))
  }

  predicate InsTyped(f: Fun, i: Ins) {
    match i
    case Binary(id, _, l, r) => Defines(f, id, I32) && HasType(f, l, I32) && HasType(f, r, I32)
    case Icmp(id, _, l, r) => Defines(f, id, I1) && HasSomeType(f, l) && HasSomeType(f, r)
    case Zext(id, v) => Defines(f, id, I32) && HasType(f, v, I1)
    case Load(id, ty, ptr) => Defines(f, id, ty) && HasType(f, ptr, Ptr(ty))
    case Store(val, ptr) => HasSomeType(f, val) && HasType(f, ptr, Ptr(TypeOf(f, val)))
    case Alloca(id, elem) => Defines(f, id, Ptr(elem))
    case Gep(id, base, indices) =>
      id in f.types && f.types[id].Ptr? && HasSomeType(f, base) && TypeOf(f, base).Ptr? &&
      IndexTypes(f, TypeOf(f, base).elem, indices)
  }

  predicate IncomingOnce(phi: Phi, p: Block) {
    (exists i :: 0 <= i < |phi.incoming| && phi.incoming[i].1 == p) &&
    forall i, j :: 0 <= i < j < |phi.incoming| && phi.incoming[i].1 == p ==> phi.incoming[j].1 != p
  }

  ghost predicate PhiTyped(f: Fun, phi: Phi) {
    Defines(f, phi.id, phi.ty) && forall i :: 0 <= i < |phi.incoming| ==> HasType(f, phi.incoming[i].0, phi.ty)
  }

  /** Every phi of `b` has exactly one value for the edge from `p`, and no two are the same. */
  ghost predicate EdgeOk(f: Fun, p: Block, b: Block) {
    && b < |f.blocks|
    && (forall i :: 0 <= i < |f.blocks[b].phis| ==> IncomingOnce(f.blocks[b].phis[i], p))
  }

  ghost predicate TermTyped(f: Fun, b: Block, t: Term) {
    match t
    case Ret(val) => val.Some? ==> HasSomeType(f, val.value)
    case Br(t) => EdgeOk(f, b, t)
    case CondBr(c, t, e) => HasType(f, c, I1) && EdgeOk(f, b, t) && EdgeOk(f, b, e)
  }

  ghost predicate BlockTyped(f: Fun, b: Block)
    requires b < |f.blocks|
  {
    var blk := f.blocks[b];
    && (forall i :: 0 <= i < |blk.phis| ==> PhiTyped(f, blk.phis[i]))
    && (forall i, j :: 0 <= i < j < |blk.phis| ==> blk.phis[i].id != blk.phis[j].id)
    && (forall i :: 0 <= i < |blk.body| ==> InsTyped(f, blk.body[i]))
    && TermTyped(f, b, blk.term)
  }

  ghost predicate WellTyped(f: Fun) {
    && 0 < |f.blocks| && f.blocks[ENTRY].phis == []
    && (forall b: Block :: b < |f.blocks| ==> BlockTyped(f, b))
    && (forall i :: 0 <= i < |f.args| ==> f.args[i] in f.types && f.types[f.args[i]].Scalar())
  }

  // ----- running -----

  datatype State = State(env: map<Id, int>, mem: Memory)

  /** Where allocations lie, and the addresses that loads and stores may touch. */
  datatype Layout = Layout(areas: map<Id, int>, user: iset<int>)

  predicate InUser(lay: Layout, a: int, n: nat) {
    forall b :: a <= b < a + n ==> b in lay.user
  }

  /** An undefined operand counts as zero. */
  function Eval(s: State, o: Operand): Option<int> {
    match o
    case Undef(_) => Some(0)
    case ConstInt(c, _) => Some(c)
    case Var(id) => if id in s.env then Some(s.env[id]) else None
  }

  function BinResult(op: BinOp, x: int, y: int): Option<int> {
    match op
    case Add => Some(Wrap32(x + y))
    case Sub => Some(Wrap32(x - y))
    case Mul => Some(Wrap32(x * y))
    case SDiv => if y == 0 || (x == -TWO_31 && y == -1) then None else Some(Truncated(x, y))
  }

  /** The quotient rounded toward zero. */
  function Truncated(x: int, y: int): int
    requires y != 0
  {
    var q := Abs(x) / Abs(y);
    if (x < 0) == (y < 0) then q else -q
  }

  function Abs(x: int): nat {
    if x < 0 then -x else x
  }

  predicate CmpHolds(cmp: Cmp, x: int, y: int) {
    match cmp
    case Eq => x == y
    case Ne => x != y
    case Lt => x < y
    case Gt => x > y
    case Le => x <= y
    case Ge => x >= y
  }

  /** The distance that an address computation adds: each index times the size of what it steps over. */
  function GepOffset(s: State, ty: Ty, indices: seq<Operand>): Option<int> {
    if indices == [] then Some(0)
    else
      var x := Eval(s, indices[0]);
      var rest := if |indices| > 1 && !ty.Array? then None
                  else GepOffset(s, if ty.Array? then ty.elem else ty, indices[1..]);
      if x.None? || rest.None? then None else Some(x.value * ty.Size() + rest.value)
  }

  function Assign(s: State, id: Id, x: Option<int>): Option<State> {
    if x.None? then None else Some(s.(env := s.env[id := x.value]))
  }

  ghost function LoadFrom(lay: Layout, s: State, ty: Ty, a: int): Option<int> {
    if ty.Scalar() && InUser(lay, a, ty.Size()) && Is64(a) && Is64(a + ty.Size()) &&
       ty.Holds(Read(s.mem, a, ty.Size()))
    then Some(Read(s.mem, a, ty.Size())) else None
  }

  ghost function ExecIns(f: Fun, lay: Layout, i: Ins, s: State): Option<State> {
    match i
    case Binary(id, op, l, r) =>
      var x, y := Eval(s, l), Eval(s, r);
      if x.None? || y.None? then None else Assign(s, id, BinResult(op, x.value, y.value))
    case Icmp(id, cmp, l, r) =>
      var x, y := Eval(s, l), Eval(s, r);
      if x.None? || y.None? then None else Assign(s, id, Some(if CmpHolds(cmp, x.value, y.value) then 1 else 0))
    case Zext(id, v) => Assign(s, id, Eval(s, v))
    case Load(id, ty, ptr) =>
      var a := Eval(s, ptr);
      if a.None? then None else Assign(s, id, LoadFrom(lay, s, ty, a.value))
    case Store(val, ptr) =>
      var a, x, ty := Eval(s, ptr), Eval(s, val), TypeOf(f, val);
      if a.None? || x.None? || !ty.Scalar() || !InUser(lay, a.value, ty.Size()) || !Is64(a.value) ||
         !Is64(a.value + ty.Size())
      then None else Some(s.(mem := Write(s.mem, a.value, ty.Size(), x.value)))
    case Alloca(id, _) => Assign(s, id, if id in lay.areas then Some(lay.areas[id]) else None)
    case Gep(id, base, indices) =>
      var a, d := Eval(s, base), GepOffset(s, if TypeOf(f, base).Ptr? then TypeOf(f, base).elem else I32, indices);
      if a.None? || d.None? then None else Assign(s, id, Some(Wrap64(a.value + d.value)))
  }

  ghost function ExecBody(f: Fun, lay: Layout, body: seq<Ins>, s: State): Option<State> {
    if body == [] then Some(s)
    else
      var before := ExecBody(f, lay, body[..|body| - 1], s);
      if before.None? then None else ExecIns(f, lay, body[|body| - 1], before.value)
  }

  /** The value that comes in over the edge from `p`. */
  function Incoming(phi: Phi, p: Block): (o: Option<Operand>)
    ensures o.Some? ==> (o.value, p) in phi.incoming
  {
    FromPred(phi.incoming, p)
  }

  function FromPred(incoming: seq<(Operand, Block)>, p: Block): (o: Option<Operand>)
    ensures o.Some? ==> (o.value, p) in incoming
  {
    if incoming == [] then None
    else if incoming[0].1 == p then Some(incoming[0].0)
    else FromPred(incoming[1..], p)
  }

  /** The values that all phis take at once. */
  function PhiValues(phis: seq<Phi>, p: Block, s: State): (r: Option<map<Id, int>>)
    ensures r.Some? ==> r.value.Keys == set phi | phi in phis :: phi.id
  {
    if phis == [] then Some(map[])
    else
      var front, phi := PhiValues(phis[..|phis| - 1], p, s), phis[|phis| - 1];
      assert phis == phis[..|phis| - 1] + [phi];
      var o := Incoming(phi, p);
      if front.None? || o.None? || Eval(s, o.value).None? then None
      else Some(front.value[phi.id := Eval(s, o.value).value])
  }

  /** Crossing an edge: all phis change together. */
  function Cross(f: Fun, p: Block, b: Block, s: State): Option<State>
    requires b < |f.blocks|
  {
    var vals := PhiValues(f.blocks[b].phis, p, s);
    if vals.None? then None else Some(s.(env := s.env + vals.value))
  }

  /** Where the terminator goes. */
  function Target(t: Term, s: State): Option<Block> {
    match t
    case Ret(_) => None
    case Br(b) => Some(b)
    case CondBr(c, b, e) =>
      var x := Eval(s, c);
      if x.None? then None else Some(if x.value != 0 then b else e)
  }

  /** The state in which control reaches the body of the last block of `p`, if the run takes that way. */
  ghost function RunTo(f: Fun, lay: Layout, start: State, p: seq<Block>): Option<State>
    requires |p| > 0 && forall i :: 0 <= i < |p| ==> p[i] < |f.blocks|
    decreases |p|
  {
    if |p| == 1 then if p[0] == ENTRY then Some(start) else None
    else
      var a, b := p[|p| - 2], p[|p| - 1];
      var s := RunTo(f, lay, start, p[..|p| - 1]);
      if s.None? then None
      else
        var s' := ExecBody(f, lay, f.blocks[a].body, s.value);
        if s'.None? || Target(f.blocks[a].term, s'.value) != Some(b) then None
        else Cross(f, a, b, s'.value)
  }
}
