/** Value numbering and the code generator read the same operations: what one folds is what the other computes. */
module SharedMeaning {
  import opened Basics
  import opened LoongArch
  import V = ValueNumbering
  import S = StackIr
  import Emission

  function Numbered(op: S.BinOp): V.Op {
    match op
    case Add => V.Add
    case Sub => V.Sub
    case Mul => V.Mul
    case SDiv => V.SDiv
  }

  function NumberedCmp(cmp: S.Cmp): V.CmpOp {
    match cmp
    case Eq => V.Eq
    case Ne => V.Ne
    case Lt => V.Lt
    case Gt => V.Gt
    case Le => V.Le
    case Ge => V.Ge
  }

  /** Where the operation is defined, both give the same 32-bit number. */
  lemma SameArithmetic(w: V.World, op: S.BinOp, x: int, y: int)
    requires Is32(x) && Is32(y) && S.BinResult(op, x, y).Some?
    ensures V.Apply(w, Numbered(op), [x, y]) == S.BinResult(op, x, y).value
  {
    if op == S.SDiv {
      Emission.QuotientTruncates(x, y);
    }
  }

  lemma SameComparison(w: V.World, cmp: S.Cmp, x: int, y: int)
    ensures V.Apply(w, V.Cmp(NumberedCmp(cmp)), [x, y]) == if S.CmpHolds(cmp, x, y) then 1 else 0
  {
  }

  /** Folding gives the constant that running the operation would give. */
  lemma FoldedAsRun(op: S.BinOp, a: V.Val, b: V.Val)
    requires a.ConstInt? && b.ConstInt? && Is32(a.c) && Is32(b.c) && S.BinResult(op, a.c, b.c).Some?
    ensures V.Compute(Numbered(op), a, b) == Some(V.ConstInt(S.BinResult(op, a.c, b.c).value, V.Int32))
  {
    if op == S.SDiv {
      Emission.QuotientTruncates(a.c, b.c);
    }
  }

  lemma ComparedAsRun(cmp: S.Cmp, a: V.Val, b: V.Val)
    requires a.ConstInt? && b.ConstInt?
    ensures V.Compute(V.Cmp(NumberedCmp(cmp)), a, b) ==
            Some(V.ConstInt(if S.CmpHolds(cmp, a.c, b.c) then 1 else 0, V.Int1))
  {
  }

  /** An extension keeps the number, in both. */
  lemma ExtendedAsRun(w: V.World, lay: S.Layout, f: S.Fun, id: S.Id, o: S.Operand, s: S.State)
    requires S.Eval(s, o).Some?
    ensures S.ExecIns(f, lay, S.Zext(id, o), s) ==
            Some(s.(env := s.env[id := V.Apply(w, V.Zext, [S.Eval(s, o).value])]))
  {
  }
}
