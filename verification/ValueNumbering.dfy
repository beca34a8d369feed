/** Value numbering: equal numbers mean equal values, whatever the arguments, loads and calls return. */
module ValueNumbering {
  import opened Basics
  import opened LoongArch

  datatype Ty = Int1 | Int32 | OtherTy

  datatype CmpOp = Ge | Gt | Le | Lt | Eq | Ne

  /** `Fresh` stands for the instructions that always get a number of their own. */
  datatype Op = Add | Sub | Mul | SDiv | Cmp(cmp: CmpOp) | Zext | PureCall | Fresh

  /** Values are identified by what they are; instructions also by their `id`. */
  datatype Val =
    | Leaf(id: nat)
    | ConstInt(c: int, ty: Ty)
    | OtherConst(id: nat)
    | Instr(id: nat, op: Op, ty: Ty, operands: seq<Val>)
  {
    predicate IsConstant() {
      ConstInt? || OtherConst?
    }

    predicate WellFormed() {
      Instr? ==>
        && (forall i :: 0 <= i < |operands| ==> operands[i].WellFormed())
        && (op in {Add, Sub, Mul, SDiv} || op.Cmp? ==> |operands| == 2)
        && (op == Zext ==> |operands| == 1)
    }
  }

  // ----- what values mean -----

  /** What the program's surroundings supply: the values of arguments and of everything that is not looked into, and what pure
      functions return for their arguments (the callee comes first). */
  datatype World = World(given: Val -> int, call: seq<int> -> int)

  function CmpResult(cmp: CmpOp, x: int, y: int): int {
    var holds := match cmp
      case Ge => x >= y
      case Gt => x > y
      case Le => x <= y
      case Lt => x < y
      case Eq => x == y
      case Ne => x != y;
    if holds then 1 else 0
  }

  function Apply(w: World, op: Op, xs: seq<int>): int {
    if op == PureCall then w.call(xs)
    else if op == Zext && |xs| == 1 then xs[0]
    else if |xs| != 2 then 0
    else match op
         case Add => Wrap32(xs[0] + xs[1])
         case Sub => Wrap32(xs[0] - xs[1])
         case Mul => Wrap32(xs[0] * xs[1])
         case SDiv => Wrap32(Quotient(xs[0], xs[1]))
         case Cmp(cmp) => CmpResult(cmp, xs[0], xs[1])
         case _ => 0
  }

  function Meaning(w: World, v: Val): int
    decreases v, 1
  {
    match v
    case Leaf(_) => w.given(v)
    case ConstInt(c, _) => c
    case OtherConst(_) => w.given(v)
    case Instr(_, op, _, operands) => if op == Fresh then w.given(v) else Apply(w, op, Meanings(w, v, |operands|))
  }

  /** The values of the first `k` operands. */
  function Meanings(w: World, v: Val, k: nat): (r: seq<int>)
    requires v.Instr? && k <= |v.operands|
    ensures |r| == k
    decreases v, 0, k
  {
    if k == 0 then [] else Meanings(w, v, k - 1) + [Meaning(w, v.operands[k - 1])]
  }

  lemma {:induction false} MeaningsAt(w: World, v: Val, k: nat, i: nat)
    requires v.Instr? && i < k <= |v.operands|
    ensures Meanings(w, v, k)[i] == Meaning(w, v.operands[i])
    decreases k
  {
    if i < k - 1 {
      MeaningsAt(w, v, k - 1, i);
    }
  }

  ghost predicate SameValue(a: Val, b: Val) {
    forall w: World {:trigger Meaning(w, a)} {:trigger Meaning(w, b)} :: Meaning(w, a) == Meaning(w, b)
  }

  // ----- expressions -----

  /** An operation on numbers. */
  datatype Expr = Expr(op: Op, args: seq<nat>, ty: Ty)

  predicate IsCommutative(op: Op) {
    op == Add || op == Mul || op == Cmp(Eq) || op == Cmp(Ne)
  }

  function Swapped(cmp: CmpOp): CmpOp {
    match cmp
    case Ge => Le
    case Gt => Lt
    case Le => Ge
    case Lt => Gt
    case Eq => Eq
    case Ne => Ne
  }

  /** Sorts the operands of a commutative operation, and of a comparison, whose predicate then turns around. */
  function FinalizeExpression(e: Expr): Expr
    requires IsCommutative(e.op) || e.op.Cmp? ==> |e.args| == 2
  {
    var e1 := if IsCommutative(e.op) && e.args[0] > e.args[1] then e.(args := [e.args[1], e.args[0]]) else e;
    if e1.op.Cmp? && e1.args[0] > e1.args[1] then
      Expr(Cmp(Swapped(e1.op.cmp)), [e1.args[1], e1.args[0]], e1.ty)
    else e1
  }

  /** The value of an expression when each number stands for the value of its first owner. */
  function Denotes(w: World, e: Expr, rep: map<nat, Val>): int {
    Apply(w, e.op, Reps(w, e.args, rep))
  }

  function Reps(w: World, args: seq<nat>, rep: map<nat, Val>): (r: seq<int>)
    ensures |r| == |args|
    ensures forall i :: 0 <= i < |args| && args[i] in rep ==> r[i] == Meaning(w, rep[args[i]])
  {
    seq(|args|, i requires 0 <= i < |args| => if args[i] in rep then Meaning(w, rep[args[i]]) else 0)
  }

  /** Finalizing keeps the value. */
  lemma FinalizeSound(w: World, e: Expr, rep: map<nat, Val>)
    requires IsCommutative(e.op) || e.op.Cmp? ==> |e.args| == 2
    ensures Denotes(w, FinalizeExpression(e), rep) == Denotes(w, e, rep)
  {
    var xs := Reps(w, e.args, rep);
    if IsCommutative(e.op) || e.op.Cmp? {
      assert Reps(w, [e.args[1], e.args[0]], rep) == [xs[1], xs[0]];
      assert xs == [xs[0], xs[1]];
      assert xs[0] * xs[1] == xs[1] * xs[0];
    }
  }

  /** The form is canonical: swapping the operands of a commutative operation, or those of a comparison together with
      its predicate, makes no difference. */
  lemma FinalizeCanonical(op: Op, x: nat, y: nat, ty: Ty)
    requires op in {Add, Mul} || op.Cmp?
    ensures op in {Add, Mul, Cmp(Eq), Cmp(Ne)} ==>
              FinalizeExpression(Expr(op, [x, y], ty)) == FinalizeExpression(Expr(op, [y, x], ty))
    ensures op.Cmp? && x != y ==>
              FinalizeExpression(Expr(op, [x, y], ty)) == FinalizeExpression(Expr(Cmp(Swapped(op.cmp)), [y, x], ty))
  {
  }

  // ----- folding -----

  /** Folding two integer constants; division by zero is left alone. */
  function Compute(op: Op, a: Val, b: Val): Option<Val> {
    if !a.ConstInt? || !b.ConstInt? then None
    else match op
         case Add => Some(ConstInt(Wrap32(a.c + b.c), Int32))
         case Sub => Some(ConstInt(Wrap32(a.c - b.c), Int32))
         case Mul => Some(ConstInt(Wrap32(a.c * b.c), Int32))
         case SDiv => if b.c == 0 then None else Some(ConstInt(Wrap32(Quotient(a.c, b.c)), Int32))
         case Cmp(cmp) => Some(ConstInt(CmpResult(cmp, a.c, b.c), Int1))
         case _ => None
  }

  function ComputeOne(op: Op, a: Val): Option<Val> {
    if a.ConstInt? && op == Zext then Some(ConstInt(a.c, Int32)) else None
  }

  /** Integer constants that the operation can be computed on: two for arithmetic and comparisons, where the divisor
      must not be zero, and one for the extension. */
  predicate Folds(op: Op, cs: seq<Val>) {
    && (forall i :: 0 <= i < |cs| ==> cs[i].ConstInt?)
    && match op
       case Add => |cs| == 2
       case Sub => |cs| == 2
       case Mul => |cs| == 2
       case Cmp(_) => |cs| == 2
       case SDiv => |cs| == 2 && cs[1].c != 0
       case Zext => |cs| == 1
       case _ => false
  }

  lemma ComputeSound(w: World, v: Val, a: Val, b: Val)
    requires v.Instr? && |v.operands| == 2 && Compute(v.op, a, b).Some?
    requires Meaning(w, a) == Meaning(w, v.operands[0]) && Meaning(w, b) == Meaning(w, v.operands[1])
    ensures Meaning(w, Compute(v.op, a, b).value) == Meaning(w, v)
  {
    MeaningsAt(w, v, 2, 0);
    MeaningsAt(w, v, 2, 1);
  }

  lemma ComputeOneSound(w: World, v: Val, a: Val)
    requires v.Instr? && |v.operands| == 1 && ComputeOne(v.op, a).Some? && Meaning(w, a) == Meaning(w, v.operands[0])
    ensures Meaning(w, ComputeOne(v.op, a).value) == Meaning(w, v)
  {
    MeaningsAt(w, v, 1, 0);
  }

  // ----- the tables -----

  datatype Tables = Tables(numbers: map<Val, nat>, exprs: map<Expr, nat>, consts: map<nat, Val>, next: nat)

  /** `rep` gives the first owner of each number. */
  ghost predicate NumbersSound(t: Tables, rep: map<nat, Val>) {
    forall v :: v in t.numbers ==> t.numbers[v] in rep && SameValue(v, rep[t.numbers[v]])
  }

  ghost predicate ExprSound(t: Tables, rep: map<nat, Val>, e: Expr) {
    e in t.exprs && t.exprs[e] in rep && (forall i :: 0 <= i < |e.args| ==> e.args[i] in rep) &&
    forall w: World :: Denotes(w, e, rep) == Meaning(w, rep[t.exprs[e]])
  }

  ghost predicate ConstsSound(t: Tables, rep: map<nat, Val>) {
    forall k :: k in t.consts ==>
      && k in rep && t.consts[k].IsConstant() && SameValue(t.consts[k], rep[k])
      && t.consts[k] in t.numbers && t.numbers[t.consts[k]] == k
  }

  ghost predicate Sound(t: Tables, rep: map<nat, Val>) {
    && NumbersSound(t, rep) && ConstsSound(t, rep)
    && (forall e :: e in t.exprs ==> ExprSound(t, rep, e))
    && (forall k :: k in rep ==> 0 < k < t.next) && 0 < t.next
  }

  /** Equal numbers, equal values. */
  lemma EqualNumbersEqualValues(t: Tables, rep: map<nat, Val>, a: Val, b: Val)
    requires Sound(t, rep) && a in t.numbers && b in t.numbers && t.numbers[a] == t.numbers[b]
    ensures SameValue(a, b)
  {
    hide Meaning;
    forall w: World
      ensures Meaning(w, a) == Meaning(w, b)
    {
      assert Meaning(w, a) == Meaning(w, rep[t.numbers[a]]);
      assert Meaning(w, b) == Meaning(w, rep[t.numbers[b]]);
    }
  }

  /** What numbering more values keeps. */
  ghost predicate Extends(t: Tables, rep: map<nat, Val>, t': Tables, rep': map<nat, Val>) {
    && (forall v :: v in t.numbers ==> v in t'.numbers && t'.numbers[v] == t.numbers[v])
    && (forall e :: e in t.exprs ==> e in t'.exprs && t'.exprs[e] == t.exprs[e])
    && (forall k :: k in rep ==> k in rep' && rep'[k] == rep[k])
    && (forall k :: k in t.consts ==> k in t'.consts && t'.consts[k] == t.consts[k])
    && (forall k :: k in rep && k in t'.consts ==> k in t.consts)
    && t.next <= t'.next
  }

  function NumbersOf(t: Tables, vs: seq<Val>): (r: seq<nat>)
    ensures |r| == |vs|
    ensures forall i :: 0 <= i < |vs| && vs[i] in t.numbers ==> r[i] == t.numbers[vs[i]]
  {
    seq(|vs|, i requires 0 <= i < |vs| => if vs[i] in t.numbers then t.numbers[vs[i]] else 0)
  }

  /** The expression of an instruction, once its operands have numbers. */
  function ExprOf(t: Tables, v: Val): Expr
    requires v.Instr? && v.WellFormed()
  {
    FinalizeExpression(Expr(v.op, NumbersOf(t, v.operands), v.ty))
  }

  ghost predicate OperandsNumbered(t: Tables, v: Val)
    requires v.Instr?
  {
    forall i :: 0 <= i < |v.operands| ==> v.operands[i] in t.numbers
  }

  function ConstantOf(t: Tables, v: Val): Option<Val> {
    if v.IsConstant() then Some(v)
    else if v in t.numbers && t.numbers[v] in t.consts then Some(t.consts[t.numbers[v]])
    else None
  }

  /** What is known of the values: their constants, and otherwise themselves. */
  function KnownAs(t: Tables, vs: seq<Val>): (r: seq<Val>)
    ensures |r| == |vs|
    ensures forall i :: 0 <= i < |vs| ==> r[i] == if ConstantOf(t, vs[i]).Some? then ConstantOf(t, vs[i]).value else vs[i]
  {
    seq(|vs|, i requires 0 <= i < |vs| => if ConstantOf(t, vs[i]).Some? then ConstantOf(t, vs[i]).value else vs[i])
  }

  /** A numbered operation was folded, or goes by its expression and could not be folded. */
  ghost predicate ListedAt(t: Tables, v: Val) {
    v in t.numbers && v.Instr? && v.WellFormed() && v.op != Fresh ==>
      t.numbers[v] in t.consts ||
      (OperandsNumbered(t, v) && ExprOf(t, v) in t.exprs && t.exprs[ExprOf(t, v)] == t.numbers[v] &&
       !Folds(v.op, KnownAs(t, v.operands)))
  }

  ghost predicate Listed(t: Tables) {
    forall v :: v in t.numbers ==> ListedAt(t, v) && ConstsListed(t, v)
  }

  /** Operations on operands with the same numbers have the same number, unless folding told them apart. */
  lemma CongruentShare(t: Tables, a: Val, b: Val)
    requires Listed(t) && a in t.numbers && b in t.numbers && t.numbers[a] !in t.consts && t.numbers[b] !in t.consts
    requires a.Instr? && b.Instr? && a.WellFormed() && b.WellFormed() && a.op != Fresh && b.op != Fresh
    requires ExprOf(t, a) == ExprOf(t, b)
    ensures t.numbers[a] == t.numbers[b]
  {
    assert ListedAt(t, a) && ListedAt(t, b);
  }

  lemma ExtendsListed(t: Tables, rep: map<nat, Val>, t': Tables, rep': map<nat, Val>, v: Val)
    requires Extends(t, rep, t', rep') && NumbersSound(t, rep) && v in t.numbers && ListedAt(t, v)
    ensures ListedAt(t', v)
  {
    if v.Instr? && v.WellFormed() && v.op != Fresh && t.numbers[v] !in t.consts {
      assert NumbersOf(t', v.operands) == NumbersOf(t, v.operands);
      KnownStays(t, rep, t', rep', v);
    }
  }

  /** What is known of numbered values does not change. */
  lemma KnownStays(t: Tables, rep: map<nat, Val>, t': Tables, rep': map<nat, Val>, v: Val)
    requires Extends(t, rep, t', rep') && NumbersSound(t, rep) && v.Instr? && OperandsNumbered(t, v)
    ensures KnownAs(t', v.operands) == KnownAs(t, v.operands)
  {
    hide SameValue;
    forall i | 0 <= i < |v.operands|
      ensures ConstantOf(t', v.operands[i]) == ConstantOf(t, v.operands[i])
    {
      assert v.operands[i] in t.numbers;
    }
  }

  lemma ExtendsTrans(t: Tables, rep: map<nat, Val>, u: Tables, repU: map<nat, Val>, w: Tables, repW: map<nat, Val>)
    requires Extends(t, rep, u, repU) && Extends(u, repU, w, repW)
    ensures Extends(t, rep, w, repW)
  {
  }

  lemma ExtendsSelf(t: Tables, rep: map<nat, Val>)
    ensures Extends(t, rep, t, rep)
  {
  }

  /** The value of an instruction is that of its expression. */
  lemma ExprMeans(t: Tables, rep: map<nat, Val>, v: Val, w: World)
    requires Sound(t, rep) && v.Instr? && v.WellFormed() && v.op != Fresh && OperandsNumbered(t, v)
    ensures Denotes(w, ExprOf(t, v), rep) == Meaning(w, v)
  {
    hide ExprSound, ConstsSound, Apply, FinalizeExpression;
    var e := Expr(v.op, NumbersOf(t, v.operands), v.ty);
    FinalizeSound(w, e, rep);
    forall i | 0 <= i < |v.operands|
      ensures Reps(w, e.args, rep)[i] == Meanings(w, v, |v.operands|)[i]
    {
      MeaningsAt(w, v, |v.operands|, i);
      OperandRep(t, rep, v.operands[i], w);
    }
    assert Reps(w, e.args, rep) == Meanings(w, v, |v.operands|);
  }

  lemma OperandRep(t: Tables, rep: map<nat, Val>, v: Val, w: World)
    requires NumbersSound(t, rep) && v in t.numbers
    ensures t.numbers[v] in rep && Meaning(w, rep[t.numbers[v]]) == Meaning(w, v)
  {
    hide Meaning;
    assert SameValue(v, rep[t.numbers[v]]);
  }

  // ----- growing the tables -----

  /** More numbers leave expressions as they were. */
  lemma ExprStays(t: Tables, rep: map<nat, Val>, t': Tables, rep': map<nat, Val>, e: Expr)
    requires ExprSound(t, rep, e) && Extends(t, rep, t', rep')
    ensures ExprSound(t', rep', e)
  {
    hide Meaning, Apply;
    forall w: World
      ensures Denotes(w, e, rep') == Meaning(w, rep'[t'.exprs[e]])
    {
      assert Reps(w, e.args, rep') == Reps(w, e.args, rep);
      assert Denotes(w, e, rep) == Meaning(w, rep[t.exprs[e]]);
    }
  }

  /** A value with a number of its own. */
  lemma AddFresh(t: Tables, rep: map<nat, Val>, v: Val)
    requires Sound(t, rep) && Listed(t) && v !in t.numbers && (v.Instr? ==> v.op == Fresh)
    ensures var consts := if v.IsConstant() then t.consts[t.next := v] else t.consts;
            var t' := t.(numbers := t.numbers[v := t.next], consts := consts, next := t.next + 1);
            Sound(t', rep[t.next := v]) && Listed(t') && Extends(t, rep, t', rep[t.next := v])
  {
    hide Meaning, ExprSound, ListedAt;
    var consts := if v.IsConstant() then t.consts[t.next := v] else t.consts;
    var t' := t.(numbers := t.numbers[v := t.next], consts := consts, next := t.next + 1);
    var rep' := rep[t.next := v];
    NewNumber(t, rep);
    forall e | e in t'.exprs
      ensures ExprSound(t', rep', e)
    {
      ExprStays(t, rep, t', rep', e);
    }
    forall u | u in t'.numbers
      ensures ListedAt(t', u)
    {
      if u == v {
        FreshListed(t', v);
      } else {
        ExtendsListed(t, rep, t', rep', u);
      }
    }
  }

  lemma FreshListed(t: Tables, v: Val)
    requires v.Instr? ==> v.op == Fresh
    ensures ListedAt(t, v)
  {
  }

  lemma NewNumber(t: Tables, rep: map<nat, Val>)
    requires Sound(t, rep)
    ensures t.next !in rep && t.next !in t.consts
    ensures forall v :: v in t.numbers ==> t.numbers[v] in rep
  {
    hide ExprSound, SameValue;
  }

  /** A value that shares a number. */
  lemma AddShared(t: Tables, rep: map<nat, Val>, v: Val, n: nat)
    requires Sound(t, rep) && Listed(t) && v.Instr? && v !in t.numbers && n in rep && SameValue(v, rep[n])
    requires ListedAt(t.(numbers := t.numbers[v := n]), v)
    ensures var t' := t.(numbers := t.numbers[v := n]);
            Sound(t', rep) && Listed(t') && Extends(t, rep, t', rep)
  {
    hide Meaning, ExprSound, ListedAt, SameValue;
    var t' := t.(numbers := t.numbers[v := n]);
    forall e | e in t'.exprs
      ensures ExprSound(t', rep, e)
    {
      ExprStays(t, rep, t', rep, e);
    }
    forall u | u in t'.numbers
      ensures ListedAt(t', u)
    {
      if u != v {
        ExtendsListed(t, rep, t', rep, u);
      }
    }
  }

  /** An instruction whose expression is new. */
  lemma AddExpr(t: Tables, rep: map<nat, Val>, v: Val)
    requires Sound(t, rep) && Listed(t) && v !in t.numbers && v.Instr? && v.WellFormed() && v.op != Fresh
    requires OperandsNumbered(t, v) && ExprOf(t, v) !in t.exprs && !Folds(v.op, KnownAs(t, v.operands))
    ensures var t' := t.(numbers := t.numbers[v := t.next], exprs := t.exprs[ExprOf(t, v) := t.next], next := t.next + 1);
            Sound(t', rep[t.next := v]) && Listed(t') && Extends(t, rep, t', rep[t.next := v])
  {
    hide Meaning, ExprSound, ListedAt, SameValue, FinalizeExpression, Val.WellFormed;
    var e := ExprOf(t, v);
    var t' := t.(numbers := t.numbers[v := t.next], exprs := t.exprs[e := t.next], next := t.next + 1);
    var rep' := rep[t.next := v];
    NewNumber(t, rep);
    Reflexive(v);
    forall x | x in t'.exprs
      ensures ExprSound(t', rep', x)
    {
      if x == e {
        NewExprSound(t, rep, t', rep', v);
      } else {
        ExprStays(t, rep, t', rep', x);
      }
    }
    forall u | u in t'.numbers
      ensures ListedAt(t', u)
    {
      if u == v {
        SelfListed(t, t', v);
      } else {
        ExtendsListed(t, rep, t', rep', u);
      }
    }
  }

  lemma Reflexive(v: Val)
    ensures SameValue(v, v)
  {
  }

  lemma NewExprSound(t: Tables, rep: map<nat, Val>, t': Tables, rep': map<nat, Val>, v: Val)
    requires Sound(t, rep) && v.Instr? && v.WellFormed() && v.op != Fresh && OperandsNumbered(t, v)
    requires ExprOf(t, v) in t'.exprs && t'.exprs[ExprOf(t, v)] == t.next && rep' == rep[t.next := v]
    ensures ExprSound(t', rep', ExprOf(t, v))
  {
    hide Meaning, Apply, ExprSound;
    var e := ExprOf(t, v);
    ExprArgs(t, rep, v);
    NewNumber(t, rep);
    forall w: World
      ensures Denotes(w, e, rep') == Meaning(w, rep'[t'.exprs[e]])
    {
      ExprMeans(t, rep, v, w);
      assert Reps(w, e.args, rep') == Reps(w, e.args, rep);
    }
    ExprSoundIf(t', rep', e);
  }

  lemma ExprSoundIf(t: Tables, rep: map<nat, Val>, e: Expr)
    requires e in t.exprs && t.exprs[e] in rep && (forall i :: 0 <= i < |e.args| ==> e.args[i] in rep)
    requires forall w: World :: Denotes(w, e, rep) == Meaning(w, rep[t.exprs[e]])
    ensures ExprSound(t, rep, e)
  {
  }

  lemma ExprArgs(t: Tables, rep: map<nat, Val>, v: Val)
    requires NumbersSound(t, rep) && v.Instr? && v.WellFormed() && OperandsNumbered(t, v)
    ensures forall i :: 0 <= i < |ExprOf(t, v).args| ==> ExprOf(t, v).args[i] in rep
  {
    hide SameValue;
    forall i | 0 <= i < |v.operands|
      ensures NumbersOf(t, v.operands)[i] in rep
    {
      assert v.operands[i] in t.numbers;
    }
  }

  lemma SelfListed(t: Tables, t': Tables, v: Val)
    requires v.Instr? && v.WellFormed() && OperandsNumbered(t, v) && v !in t.numbers
    requires v in t'.numbers && (forall u :: u in t.numbers ==> u in t'.numbers && t'.numbers[u] == t.numbers[u])
    requires ExprOf(t, v) in t'.exprs && t'.exprs[ExprOf(t, v)] == t'.numbers[v]
    requires t'.consts == t.consts && !Folds(v.op, KnownAs(t, v.operands))
    ensures ListedAt(t', v)
  {
    assert NumbersOf(t', v.operands) == NumbersOf(t, v.operands);
    assert KnownAs(t', v.operands) == KnownAs(t, v.operands);
  }

  /** An instruction whose expression is known has the value of that expression's first owner. */
  lemma KnownExpr(t: Tables, rep: map<nat, Val>, v: Val)
    requires Sound(t, rep) && v.Instr? && v.WellFormed() && v.op != Fresh && OperandsNumbered(t, v)
    requires ExprOf(t, v) in t.exprs
    ensures t.exprs[ExprOf(t, v)] in rep && SameValue(v, rep[t.exprs[ExprOf(t, v)]])
  {
    hide Meaning, Apply;
    var e := ExprOf(t, v);
    assert ExprSound(t, rep, e);
    forall w: World
      ensures Meaning(w, v) == Meaning(w, rep[t.exprs[e]])
    {
      ExprMeans(t, rep, v, w);
      assert Denotes(w, e, rep) == Meaning(w, rep[t.exprs[e]]);
    }
  }

  // ----- the table -----

  class ValueTable {
    var valueNumbering: map<Val, nat>
    var expressionNumbering: map<Expr, nat>
    var constNumbering: map<nat, Val>
    var nextValueNumber: nat
    /** The first owner of each number. */
    ghost var rep: map<nat, Val>

    constructor ()
      ensures Good() && valueNumbering == map[]
    {
      valueNumbering, expressionNumbering, constNumbering, nextValueNumber, rep := map[], map[], map[], 1, map[];
    }

    ghost function Now(): Tables
      reads this
    {
      Tables(valueNumbering, expressionNumbering, constNumbering, nextValueNumber)
    }

    ghost predicate Good()
      reads this
    {
      Sound(Now(), rep) && Listed(Now())
    }

    method GetConstant(v: Val) returns (c: Option<Val>)
      ensures c == ConstantOf(Now(), v)
    {
      if v.IsConstant() {
        return Some(v);
      }
      if v !in valueNumbering || valueNumbering[v] !in constNumbering {
        return None;
      }
      return Some(constNumbering[valueNumbering[v]]);
    }

    /** An operation is folded exactly if all its operands are known to be integer constants on which it can be
        computed. */
    method TryFoldConst(instr: Val) returns (c: Option<Val>)
      requires Good() && instr.Instr?
      ensures c.Some? <==> Folds(instr.op, KnownAs(Now(), instr.operands))
      ensures c.Some? ==> c.value.ConstInt? && SameValue(instr, c.value) && instr.op != Fresh
    {
      hide Sound, Listed, Meaning, SameValue;
      if |instr.operands| == 2 {
        var c0 := GetConstant(instr.operands[0]);
        var c1 := GetConstant(instr.operands[1]);
        if c0.Some? && c1.Some? {
          FoldTwo(Now(), rep, instr);
          return Compute(instr.op, c0.value, c1.value);
        }
        return None;
      }
      if |instr.operands| == 1 {
        var c0 := GetConstant(instr.operands[0]);
        if c0.Some? {
          FoldOne(Now(), rep, instr);
          return ComputeOne(instr.op, c0.value);
        }
        return None;
      }
      return None;
    }

    method LookupOrAdd(v: Val) returns (num: nat)
      requires Good() && v.WellFormed()
      modifies this
      ensures Good() && Extends(old(Now()), old(rep), Now(), rep)
      ensures v in valueNumbering && num == valueNumbering[v]
      ensures OnlyBelow(old(valueNumbering), valueNumbering, v)
      decreases v.Instr?, v, 1
    {
      hide Sound, Listed, Extends, SameValue, ListedAt, Val.WellFormed, OnlyBelow, ExprOf;
      ghost var t0, rep0 := Now(), rep;
      ExtendsSelf(t0, rep0);
      NothingNew(valueNumbering, v);
      if v in valueNumbering {
        return valueNumbering[v];
      }
      if !v.Instr? || v.op == Fresh {
        num := AssignFresh(v);
        return;
      }
      var folded := TryFoldConst(v);
      if folded.Some? {
        num := ShareWithConst(v, folded.value);
        return;
      }
      var expr := CreateExpr(v);
      ghost var t1, rep1 := Now(), rep;
      if v.op != PureCall {
        var lateFolded := TryFoldConst(v);
        if lateFolded.Some? {
          num := ShareWithConst(v, lateFolded.value);
          ExtendsTrans(t0, rep0, t1, rep1, Now(), rep);
          BelowTrans(t0.numbers, t1.numbers, valueNumbering, v);
          return;
        }
      }
      num := AssignExpNewValueNum(expr, v);
      ExtendsTrans(t0, rep0, t1, rep1, Now(), rep);
      BelowTrans(t0.numbers, t1.numbers, valueNumbering, v);
    }

    /** A number of its own. */
    method AssignFresh(v: Val) returns (num: nat)
      requires Good() && v !in valueNumbering && (v.Instr? ==> v.op == Fresh)
      modifies this
      ensures Good() && Extends(old(Now()), old(rep), Now(), rep)
      ensures valueNumbering == old(valueNumbering)[v := num]
      ensures OnlyBelow(old(valueNumbering), valueNumbering, v)
    {
      hide Sound, Listed, Extends;
      AddFresh(Now(), rep, v);
      num := nextValueNumber;
      valueNumbering := valueNumbering[v := num];
      if v.IsConstant() {
        constNumbering := constNumbering[num := v];
      }
      rep := rep[num := v];
      nextValueNumber := nextValueNumber + 1;
    }

    /** The number of the constant that the instruction folds to. */
    method ShareWithConst(v: Val, c: Val) returns (num: nat)
      requires Good() && v !in valueNumbering && v.Instr? && c.ConstInt? && SameValue(v, c)
      modifies this
      ensures Good() && Extends(old(Now()), old(rep), Now(), rep)
      ensures v in valueNumbering && num == valueNumbering[v]
      ensures OnlyBelow(old(valueNumbering), valueNumbering, v)
      decreases v.Instr?, v, 0
    {
      hide Sound, Listed, Extends, SameValue;
      ghost var t0, rep0 := Now(), rep;
      num := LookupOrAdd(c);
      ghost var t1, rep1 := Now(), rep;
      ConstShared(t1, rep1, v, c);
      AddShared(t1, rep1, v, num);
      valueNumbering := valueNumbering[v := num];
      ExtendsTrans(t0, rep0, t1, rep1, Now(), rep);
    }

    method AssignExpNewValueNum(e: Expr, v: Val) returns (num: nat)
      requires Good() && v !in valueNumbering && v.Instr? && v.WellFormed() && v.op != Fresh
      requires OperandsNumbered(Now(), v) && e == ExprOf(Now(), v) && !Folds(v.op, KnownAs(Now(), v.operands))
      modifies this
      ensures Good() && Extends(old(Now()), old(rep), Now(), rep)
      ensures valueNumbering == old(valueNumbering)[v := num]
      ensures OnlyBelow(old(valueNumbering), valueNumbering, v)
    {
      hide Sound, Listed, Extends, SameValue, ListedAt, ExprOf, Val.WellFormed;
      ghost var t := Now();
      if e !in expressionNumbering {
        AddExpr(t, rep, v);
        num := nextValueNumber;
        expressionNumbering := expressionNumbering[e := num];
        nextValueNumber := nextValueNumber + 1;
        rep := rep[num := v];
      } else {
        num := expressionNumbering[e];
        KnownExpr(t, rep, v);
        SelfListed(t, t.(numbers := t.numbers[v := num]), v);
        AddShared(t, rep, v, num);
      }
      valueNumbering := valueNumbering[v := num];
    }

    method CreateExpr(instr: Val) returns (e: Expr)
      requires Good() && instr.Instr? && instr.WellFormed() && instr !in valueNumbering
      modifies this
      ensures Good() && Extends(old(Now()), old(rep), Now(), rep)
      ensures OperandsNumbered(Now(), instr) && e == ExprOf(Now(), instr) && instr !in valueNumbering
      ensures OnlyBelow(old(valueNumbering), valueNumbering, instr)
      decreases true, instr, 0
    {
      hide Sound, Listed, Extends, SameValue, ListedAt, FinalizeExpression;
      ghost var t0, rep0 := Now(), rep;
      ExtendsSelf(t0, rep0);
      var args: seq<nat> := [];
      for i := 0 to |instr.operands|
        invariant Good() && Extends(t0, rep0, Now(), rep) && |args| == i
        invariant forall j :: 0 <= j < i ==> instr.operands[j] in valueNumbering && args[j] == valueNumbering[instr.operands[j]]
        invariant instr !in valueNumbering && OnlyBelow(t0.numbers, valueNumbering, instr)
      {
        ghost var t1, rep1 := Now(), rep;
        var num := LookupOrAdd(instr.operands[i]);
        ExtendsTrans(t0, rep0, t1, rep1, Now(), rep);
        NumbersKept(t1, rep1, Now(), rep);
        args := args + [num];
      }
      assert args == NumbersOf(Now(), instr.operands);
      e := FinalizeExpression(Expr(instr.op, args, instr.ty));
    }
  }

  /** Numbering `v` numbers nothing but `v`, constants, and what `v` is built from. */
  ghost predicate OnlyBelow(before: map<Val, nat>, after: map<Val, nat>, v: Val) {
    forall u :: u in after && u !in before ==> !u.Instr? || (v.Instr? && (u == v || u < v))
  }

  lemma NothingNew(m: map<Val, nat>, v: Val)
    ensures OnlyBelow(m, m, v)
  {
  }

  lemma BelowTrans(a: map<Val, nat>, b: map<Val, nat>, c: map<Val, nat>, v: Val)
    requires OnlyBelow(a, b, v) && OnlyBelow(b, c, v)
    ensures OnlyBelow(a, c, v)
  {
  }

  lemma NumbersKept(t: Tables, rep: map<nat, Val>, t': Tables, rep': map<nat, Val>)
    requires Extends(t, rep, t', rep')
    ensures forall v :: v in t.numbers ==> v in t'.numbers && t'.numbers[v] == t.numbers[v]
  {
  }

  /** The constant known for a value has the value's meaning. */
  lemma ConstantOfSound(t: Tables, rep: map<nat, Val>, v: Val, w: World)
    requires Sound(t, rep) && ConstantOf(t, v).Some?
    ensures Meaning(w, ConstantOf(t, v).value) == Meaning(w, v)
  {
    hide Meaning, ExprSound;
    if !v.IsConstant() {
      var k := t.numbers[v];
      assert SameValue(v, rep[k]) && SameValue(t.consts[k], rep[k]);
      assert Meaning(w, v) == Meaning(w, rep[k]) && Meaning(w, t.consts[k]) == Meaning(w, rep[k]);
    }
  }

  lemma FoldTwo(t: Tables, rep: map<nat, Val>, v: Val)
    requires Sound(t, rep) && v.Instr? && |v.operands| == 2
    requires ConstantOf(t, v.operands[0]).Some? && ConstantOf(t, v.operands[1]).Some?
    ensures var c := Compute(v.op, ConstantOf(t, v.operands[0]).value, ConstantOf(t, v.operands[1]).value);
            c.Some? ==> c.value.ConstInt? && v.op != Fresh && SameValue(v, c.value)
  {
    var c := Compute(v.op, ConstantOf(t, v.operands[0]).value, ConstantOf(t, v.operands[1]).value);
    hide Sound, ConstantOf, Meaning;
    if c.Some? {
      forall w: World
        ensures Meaning(w, v) == Meaning(w, c.value)
      {
        ConstantOfSound(t, rep, v.operands[0], w);
        ConstantOfSound(t, rep, v.operands[1], w);
        ComputeSound(w, v, ConstantOf(t, v.operands[0]).value, ConstantOf(t, v.operands[1]).value);
      }
    }
  }

  lemma FoldOne(t: Tables, rep: map<nat, Val>, v: Val)
    requires Sound(t, rep) && v.Instr? && |v.operands| == 1 && ConstantOf(t, v.operands[0]).Some?
    ensures var c := ComputeOne(v.op, ConstantOf(t, v.operands[0]).value);
            c.Some? ==> c.value.ConstInt? && v.op != Fresh && SameValue(v, c.value)
  {
    var c := ComputeOne(v.op, ConstantOf(t, v.operands[0]).value);
    hide Sound, ConstantOf, Meaning;
    if c.Some? {
      forall w: World
        ensures Meaning(w, v) == Meaning(w, c.value)
      {
        ConstantOfSound(t, rep, v.operands[0], w);
        ComputeOneSound(w, v, ConstantOf(t, v.operands[0]).value);
      }
    }
  }

  /** A constant keeps its number, and a value equal to it can share that. */
  lemma ConstShared(t: Tables, rep: map<nat, Val>, v: Val, c: Val)
    requires Sound(t, rep) && Listed(t) && c.IsConstant() && c in t.numbers && SameValue(v, c)
    ensures t.numbers[c] in rep && SameValue(v, rep[t.numbers[c]])
    ensures ListedAt(t.(numbers := t.numbers[v := t.numbers[c]]), v)
  {
    hide Meaning, ExprSound, ListedAt, ConstsSound;
    assert SameValue(c, rep[t.numbers[c]]);
    forall w: World
      ensures Meaning(w, v) == Meaning(w, rep[t.numbers[c]])
    {
      assert Meaning(w, v) == Meaning(w, c);
      assert Meaning(w, c) == Meaning(w, rep[t.numbers[c]]);
    }
    ConstListed(t, v, c);
  }

  lemma ConstListed(t: Tables, v: Val, c: Val)
    requires ConstsListed(t, c) && c in t.numbers && c.IsConstant()
    ensures ListedAt(t.(numbers := t.numbers[v := t.numbers[c]]), v)
  {
  }

  /** The number of a constant is marked as one. */
  ghost predicate ConstsListed(t: Tables, c: Val) {
    c in t.numbers && c.IsConstant() ==> t.numbers[c] in t.consts
  }
}
