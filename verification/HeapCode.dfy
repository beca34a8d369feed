/** The use-def heap, read as code that runs. */
module HeapCode {
  import opened Graphs
  import opened UseDef
  import opened SsaRun
  import opened DeadCodeElimination

  /** How values are read: instructions and arguments by their numbers, constants by what they are. The odd operands of
      a phi are the blocks that its values come from. */
  datatype Naming =
    Naming(number: Value -> nat, constants: map<Value, int>, labels: map<Value, Block>, critical: set<Value>)

  type Operands = map<Value, seq<Value?>>

  function OperandFor(nm: Naming, v: Value?): Operand {
    if v == null then Other(0) else if v in nm.constants then Other(nm.constants[v]) else Ref(nm.number(v))
  }

  function LabelFor(nm: Naming, v: Value?): Block {
    if v != null && v in nm.labels then nm.labels[v] else ENTRY
  }

  function OpsFor(nm: Naming, o: seq<Value?>): (r: seq<Operand>)
    ensures |r| == |o|
  {
    seq(|o|, i requires 0 <= i < |o| => OperandFor(nm, o[i]))
  }

  function IncomingFor(nm: Naming, o: seq<Value?>): (r: seq<(Operand, Block)>)
    ensures |r| == |o| / 2
  {
    seq(|o| / 2, i requires 0 <= i < |o| / 2 => (OperandFor(nm, o[2 * i]), LabelFor(nm, o[2 * i + 1])))
  }

  function InsFor(nm: Naming, ops: Operands, v: Value): (r: Ins)
    ensures r.Phi? == v.isPhi && r.id == nm.number(v)
  {
    var o := if v in ops then ops[v] else [];
    if v.isPhi then Phi(nm.number(v), IncomingFor(nm, o)) else Ins(nm.number(v), OpsFor(nm, o), v in nm.critical)
  }

  function CodeFor(nm: Naming, ops: Operands, vs: seq<Value>): (r: seq<Ins>)
    ensures |r| == |vs|
  {
    seq(|vs|, k requires 0 <= k < |vs| => InsFor(nm, ops, vs[k]))
  }

  function BodyFor(nm: Naming, ops: Operands, blocks: seq<seq<Value>>): (r: Body)
    ensures |r| == |blocks|
    ensures forall b :: 0 <= b < |blocks| ==> r[b] == CodeFor(nm, ops, blocks[b])
  {
    seq(|blocks|, b requires 0 <= b < |blocks| => CodeFor(nm, ops, blocks[b]))
  }

  predicate Listed(blocks: seq<seq<Value>>, v: Value) {
    exists b :: 0 <= b < |blocks| && v in blocks[b]
  }

  /** Numbers tell values apart; what is listed is an instruction. */
  ghost predicate NamesApart(nm: Naming, ops: Operands, blocks: seq<seq<Value>>) {
    && (forall u, v :: u in ops && v in ops && nm.number(u) == nm.number(v) ==> u == v)
    && (forall b, v :: 0 <= b < |blocks| && v in blocks[b] ==> v in ops && v !in nm.constants)
  }

  // ----- replacing a value -----

  lemma OperandReplaced(nm: Naming, ops: Operands, blocks: seq<seq<Value>>, p: Value, x: Value?, o: Value?)
    requires NamesApart(nm, ops, blocks) && p in ops && p !in nm.constants && (o != null ==> o in ops)
    ensures OperandFor(nm, if o == p then x else o) ==
            Instead(map[nm.number(p) := OperandFor(nm, x)], OperandFor(nm, o))
  {
  }

  lemma OpsReplaced(nm: Naming, ops: Operands, blocks: seq<seq<Value>>, p: Value, x: Value?, o: seq<Value?>)
    requires NamesApart(nm, ops, blocks) && p in ops && p !in nm.constants
    requires forall i :: 0 <= i < |o| && o[i] != null ==> o[i] in ops
    ensures OpsFor(nm, ReplaceIn(o, p, x)) == RewrittenOps(OpsFor(nm, o), map[nm.number(p) := OperandFor(nm, x)])
  {
    hide NamesApart, OperandFor, Instead;
    forall i | 0 <= i < |o|
      ensures OpsFor(nm, ReplaceIn(o, p, x))[i] ==
              RewrittenOps(OpsFor(nm, o), map[nm.number(p) := OperandFor(nm, x)])[i]
    {
      OperandReplaced(nm, ops, blocks, p, x, o[i]);
    }
  }

  lemma IncomingReplaced(nm: Naming, ops: Operands, blocks: seq<seq<Value>>, p: Value, x: Value?, o: seq<Value?>)
    requires NamesApart(nm, ops, blocks) && p in ops && p !in nm.constants
    requires forall i :: 0 <= i < |o| && o[i] != null ==> o[i] in ops
    requires forall i: nat :: i < |o| && i % 2 == 1 ==> o[i] != p
    ensures IncomingFor(nm, ReplaceIn(o, p, x)) ==
            RewrittenIncoming(IncomingFor(nm, o), map[nm.number(p) := OperandFor(nm, x)])
  {
    hide NamesApart, OperandFor, LabelFor, Instead;
    var sub := map[nm.number(p) := OperandFor(nm, x)];
    forall i | 0 <= i < |o| / 2
      ensures IncomingFor(nm, ReplaceIn(o, p, x))[i] == RewrittenIncoming(IncomingFor(nm, o), sub)[i]
    {
      OperandReplaced(nm, ops, blocks, p, x, o[2 * i]);
      assert (2 * i + 1) % 2 == 1;
    }
  }

  /** The blocks that phis name are no phis. */
  ghost predicate LabelsApart(ops: Operands, phis: seq<Value>) {
    forall v, i: nat {:trigger ops[v][i]} :: v in ops && v.isPhi && i < |ops[v]| && i % 2 == 1 ==> ops[v][i] !in phis
  }

  lemma InsReplaced(nm: Naming, s: Snapshot, blocks: seq<seq<Value>>, phis: seq<Value>, t: Operands, p: Value,
                    x: Value?, v: Value)
    requires s.Closed() && NamesApart(nm, s.ops, blocks) && LabelsApart(s.ops, phis) && p in phis
    requires p in s.ops && p !in nm.constants && v in s.ops
    requires t == map u | u in s.ops :: ReplaceIn(s.ops[u], p, x)
    ensures InsFor(nm, t, v) == RewrittenIns(InsFor(nm, s.ops, v), map[nm.number(p) := OperandFor(nm, x)])
  {
    hide NamesApart, OperandFor, ReplaceIn;
    var o := s.ops[v];
    forall i | 0 <= i < |o| && o[i] != null
      ensures o[i] in s.ops
    {
      assert s.ops[v][i] in s.ops;
    }
    if v.isPhi {
      forall i: nat | i < |o| && i % 2 == 1
        ensures o[i] != p
      {
        assert s.ops[v][i] !in phis;
      }
      IncomingReplaced(nm, s.ops, blocks, p, x, o);
    } else {
      OpsReplaced(nm, s.ops, blocks, p, x, o);
    }
  }

  lemma BodyReplaced(nm: Naming, s: Snapshot, blocks: seq<seq<Value>>, phis: seq<Value>, t: Operands, p: Value,
                     x: Value?)
    requires s.Closed() && NamesApart(nm, s.ops, blocks) && LabelsApart(s.ops, phis) && p in phis
    requires p in s.ops && p !in nm.constants
    requires t == map u | u in s.ops :: ReplaceIn(s.ops[u], p, x)
    ensures BodyFor(nm, t, blocks) ==
            Rewritten(BodyFor(nm, s.ops, blocks), map[nm.number(p) := OperandFor(nm, x)])
  {
    hide OperandFor, ReplaceIn, Snapshot.Closed, LabelsApart, InsFor, RewrittenIns;
    var sub := map[nm.number(p) := OperandFor(nm, x)];
    forall b | 0 <= b < |blocks|
      ensures CodeFor(nm, t, blocks[b]) == RewrittenCode(CodeFor(nm, s.ops, blocks[b]), sub)
    {
      forall k | 0 <= k < |blocks[b]|
        ensures InsFor(nm, t, blocks[b][k]) == RewrittenIns(InsFor(nm, s.ops, blocks[b][k]), sub)
      {
        assert blocks[b][k] in blocks[b];
        InsReplaced(nm, s, blocks, phis, t, p, x, blocks[b][k]);
      }
    }
  }

  // ----- taking values out -----

  lemma Position(blocks: seq<seq<Value>>, v: Value) returns (b: Block, k: nat)
    requires Listed(blocks, v)
    ensures b < |blocks| && k < |blocks[b]| && blocks[b][k] == v
  {
    b :| 0 <= b < |blocks| && v in blocks[b];
    k :| 0 <= k < |blocks[b]| && blocks[b][k] == v;
  }

  lemma ListedNamed(nm: Naming, ops: Operands, blocks: seq<seq<Value>>, b: Block, k: nat)
    requires NamesApart(nm, ops, blocks) && b < |blocks| && k < |blocks[b]|
    ensures blocks[b][k] in ops && blocks[b][k] !in nm.constants
  {
  }

  /** The list without the members of `gone`. */
  function Filter(vs: seq<Value>, gone: set<Value>): seq<Value> {
    if vs == [] then []
    else Filter(vs[..|vs| - 1], gone) + if vs[|vs| - 1] in gone then [] else [vs[|vs| - 1]]
  }

  function FilteredBlocks(blocks: seq<seq<Value>>, gone: set<Value>): (r: seq<seq<Value>>)
    ensures |r| == |blocks|
  {
    seq(|blocks|, b requires 0 <= b < |blocks| => Filter(blocks[b], gone))
  }

  ghost function NumbersLeft(nm: Naming, blocks: seq<seq<Value>>, gone: set<Value>): set<nat> {
    set b, k | 0 <= b < |blocks| && 0 <= k < |blocks[b]| && blocks[b][k] !in gone :: nm.number(blocks[b][k])
  }

  lemma LeftExactly(nm: Naming, ops: Operands, blocks: seq<seq<Value>>, gone: set<Value>, v: Value)
    requires NamesApart(nm, ops, blocks) && v in ops && Listed(blocks, v)
    ensures nm.number(v) in NumbersLeft(nm, blocks, gone) <==> v !in gone
  {
    var b, k := Position(blocks, v);
    if nm.number(v) in NumbersLeft(nm, blocks, gone) {
      var c, j :| 0 <= c < |blocks| && 0 <= j < |blocks[c]| && blocks[c][j] !in gone &&
                  nm.number(blocks[c][j]) == nm.number(v);
      ListedNamed(nm, ops, blocks, c, j);
    }
  }

  lemma {:induction false} FilteredKept(nm: Naming, ops: Operands, t: Operands, blocks: seq<seq<Value>>,
                                         gone: set<Value>, vs: seq<Value>)
    requires NamesApart(nm, ops, blocks) && forall v :: v in vs ==> v in ops && Listed(blocks, v)
    requires t.Keys == ops.Keys && forall u :: u in ops && u !in gone ==> t[u] == ops[u]
    ensures CodeFor(nm, t, Filter(vs, gone)) == Kept(CodeFor(nm, ops, vs), NumbersLeft(nm, blocks, gone))
    decreases |vs|
  {
    hide NamesApart, InsFor, NumbersLeft, Listed;
    if vs != [] {
      var front, last := vs[..|vs| - 1], vs[|vs| - 1];
      var m := NumbersLeft(nm, blocks, gone);
      FilteredKept(nm, ops, t, blocks, gone, front);
      LeftExactly(nm, ops, blocks, gone, last);
      var code := CodeFor(nm, ops, vs);
      assert code[..|code| - 1] == CodeFor(nm, ops, front);
      KeptLast(code, m);
      if last !in gone {
        SameIns(nm, ops, t, last);
        assert Filter(vs, gone) == Filter(front, gone) + [last];
        assert CodeFor(nm, t, Filter(vs, gone)) ==
               CodeFor(nm, t, Filter(front, gone)) + [InsFor(nm, t, last)];
      } else {
        assert Filter(vs, gone) == Filter(front, gone);
      }
    }
  }

  lemma SameIns(nm: Naming, ops: Operands, t: Operands, v: Value)
    requires v in ops && v in t && t[v] == ops[v]
    ensures InsFor(nm, t, v) == InsFor(nm, ops, v)
  {
  }
}
