/** Simplifying phis and runs: each replacement, and the removal at the end, changes nothing that a run does. */
module SimplifyRuns {
  import opened Graphs
  import opened UseDef
  import opened SsaRun
  import opened PhiRuns
  import opened HeapCode
  import opened DeadCodeElimination

  /** The listed instructions are a function in SSA form, with phis `phis` among them. */
  ghost predicate Describes(g: Cfg, nm: Naming, blocks: seq<seq<Value>>, phis: seq<Value>, s: Snapshot) {
    && NamesApart(nm, s.ops, blocks) && LabelsApart(s.ops, phis)
    && (forall p :: p in phis ==> p.isPhi && Listed(blocks, p))
    && WellFormed(g, BodyFor(nm, s.ops, blocks))
  }

  lemma DescribedSize(g: Cfg, nm: Naming, blocks: seq<seq<Value>>, phis: seq<Value>, s: Snapshot)
    requires Describes(g, nm, blocks, phis, s)
    ensures |blocks| == g.Size()
  {
    hide NamesApart, LabelsApart, Strict, PhisCover;
  }

  /** Every walk has the same trace. */
  ghost predicate SameRuns(g: Cfg, body: Body, body': Body) {
    forall f: Machine, start: map<nat, int>, path: seq<Block>, b: Block
      {:trigger TraceKept(f, body, body', start, path), g.PathTo(path, b)} ::
      g.PathTo(path, b) ==> TraceKept(f, body, body', start, path)
  }

  lemma SameRunsSelf(g: Cfg, body: Body)
    requires |body| == g.Size()
    ensures SameRuns(g, body, body)
  {
    hide Run, Cfg.PathTo;
    forall f: Machine, start: map<nat, int>, path: seq<Block>, b: Block | g.PathTo(path, b)
      ensures TraceKept(f, body, body, start, path)
    {
      PathWalks(g, body, path, b);
    }
  }

  lemma SameRunsTrans(g: Cfg, a: Body, b: Body, c: Body)
    requires SameRuns(g, a, b) && SameRuns(g, b, c)
    ensures SameRuns(g, a, c)
  {
    hide Run, Cfg.PathTo, PathIn;
    forall f: Machine, start: map<nat, int>, path: seq<Block>, x: Block | g.PathTo(path, x)
      ensures TraceKept(f, a, c, start, path)
    {
      assert TraceKept(f, a, b, start, path) && TraceKept(f, b, c, start, path);
    }
  }

  // ----- one replacement -----

  /** A phi of the heap with only one other value coming in, read as code. */
  lemma OnlyInCode(nm: Naming, s: Snapshot, blocks: seq<seq<Value>>, p: Value, x: Value)
    requires NamesApart(nm, s.ops, blocks) && p in s.ops && p.isPhi && p !in nm.constants && x in s.ops && x != p
    requires |s.ops[p]| % 2 == 0
    requires forall i: nat :: i < |s.ops[p]| && i % 2 == 0 ==> s.ops[p][i] == p || s.ops[p][i] == x
    ensures OnlyOperand(InsFor(nm, s.ops, p), OperandFor(nm, x))
  {
    hide NamesApart;
    OperandReplaced(nm, s.ops, blocks, p, null, x);
    var incoming := IncomingFor(nm, s.ops[p]);
    forall n | 0 <= n < |incoming|
      ensures incoming[n].0 == Ref(nm.number(p)) || incoming[n].0 == OperandFor(nm, x)
    {
      assert (2 * n) % 2 == 0;
    }
    Different(nm, s.ops, blocks, p, x);
  }

  lemma Different(nm: Naming, ops: Operands, blocks: seq<seq<Value>>, p: Value, x: Value)
    requires NamesApart(nm, ops, blocks) && p in ops && x in ops && x != p
    ensures OperandFor(nm, x) != Ref(nm.number(p))
  {
  }

  lemma LabelsStay(ops: Operands, phis: seq<Value>, t: Operands, p: Value, x: Value)
    requires LabelsApart(ops, phis) && p in phis && t == map u | u in ops :: ReplaceIn(ops[u], p, x)
    ensures LabelsApart(t, phis)
  {
    forall v, i: nat | v in t && v.isPhi && i < |t[v]| && i % 2 == 1
      ensures t[v][i] !in phis
    {
      assert ops[v][i] !in phis;
    }
  }

  lemma NamesStay(nm: Naming, ops: Operands, blocks: seq<seq<Value>>, t: Operands)
    requires NamesApart(nm, ops, blocks) && t.Keys == ops.Keys
    ensures NamesApart(nm, t, blocks)
  {
  }

  lemma OneReplaced(g: Cfg, nm: Naming, blocks: seq<seq<Value>>, phis: seq<Value>, s: Snapshot, t: Snapshot, p: Value,
                    x: Value)
    requires Describes(g, nm, blocks, phis, s) && s.Closed() && p in phis && p in s.ops && x in s.ops && x != p
    requires |s.ops[p]| % 2 == 0
    requires forall i: nat :: i < |s.ops[p]| && i % 2 == 0 ==> s.ops[p][i] == p || s.ops[p][i] == x
    requires t.ops == map u | u in s.ops :: ReplaceIn(s.ops[u], p, x)
    ensures Describes(g, nm, blocks, phis, t)
    ensures SameRuns(g, BodyFor(nm, s.ops, blocks), BodyFor(nm, t.ops, blocks))
  {
    hide NamesApart, LabelsApart, WellFormed, Snapshot.Closed, OnlyOperand, OperandFor, TraceKept, Cfg.PathTo,
         ReplaceIn;
    var body: Body := BodyFor(nm, s.ops, blocks);
    var b, k := Position(blocks, p);
    ListedNamed(nm, s.ops, blocks, b, k);
    OnlyInCode(nm, s, blocks, p, x);
    assert body[b][k] == InsFor(nm, s.ops, p);
    BodyReplaced(nm, s, blocks, phis, t.ops, p, x);
    StaysWellFormed(g, body, b, k, OperandFor(nm, x));
    LabelsStay(s.ops, phis, t.ops, p, x);
    NamesStay(nm, s.ops, blocks, t.ops);
    forall f: Machine, start: map<nat, int>, path: seq<Block>, d: Block | g.PathTo(path, d)
      ensures TraceKept(f, body, BodyFor(nm, t.ops, blocks), start, path)
    {
      PhiReplaced(f, g, body, b, k, OperandFor(nm, x), start, path, d);
    }
  }

  // ----- the removal -----

  lemma RemainingSwept(nm: Naming, ops: Operands, t: Operands, blocks: seq<seq<Value>>, erased: set<Value>)
    requires NamesApart(nm, ops, blocks)
    requires t.Keys == ops.Keys && forall u :: u in ops && u !in erased ==> t[u] == ops[u]
    ensures BodyFor(nm, t, FilteredBlocks(blocks, erased)) ==
            Swept(BodyFor(nm, ops, blocks), NumbersLeft(nm, blocks, erased))
  {
    hide NumbersLeft, CodeFor, Kept, Filter;
    forall b | 0 <= b < |blocks|
      ensures CodeFor(nm, t, Filter(blocks[b], erased)) ==
              Kept(CodeFor(nm, ops, blocks[b]), NumbersLeft(nm, blocks, erased))
    {
      FilteredKept(nm, ops, t, blocks, erased, blocks[b]);
    }
  }

  /** Nothing that stays depends on what goes, and what goes is not critical. */
  lemma RemainingClosed(nm: Naming, s: Snapshot, blocks: seq<seq<Value>>, erased: set<Value>)
    requires NamesApart(nm, s.ops, blocks) && s.Closed() && (forall e :: e in erased ==> e.isPhi && e in s.ops)
    requires forall u, i {:trigger s.ops[u][i]} :: u in s.ops && 0 <= i < |s.ops[u]| ==> s.ops[u][i] !in erased
    ensures ClosedUnder(BodyFor(nm, s.ops, blocks), NumbersLeft(nm, blocks, erased))
  {
    hide NamesApart, NumbersLeft, Listed, Snapshot.Closed;
    var body: Body := BodyFor(nm, s.ops, blocks);
    forall i | Occurs(body, i) && i.IsCritical()
      ensures i.id in NumbersLeft(nm, blocks, erased)
    {
      var v := ValueOf(nm, s.ops, blocks, i);
      LeftExactly(nm, s.ops, blocks, erased, v);
    }
    forall i, j | Occurs(body, i) && Occurs(body, j) && DependsOn(i, j)
      ensures j.id in NumbersLeft(nm, blocks, erased)
    {
      var v := ValueOf(nm, s.ops, blocks, i);
      var w := ValueOf(nm, s.ops, blocks, j);
      UsedNotErased(nm, s, blocks, erased, v, w);
      LeftExactly(nm, s.ops, blocks, erased, w);
    }
  }

  lemma ValueOf(nm: Naming, ops: Operands, blocks: seq<seq<Value>>, i: Ins) returns (v: Value)
    requires NamesApart(nm, ops, blocks) && Occurs(BodyFor(nm, ops, blocks), i)
    ensures Listed(blocks, v) && v in ops && i == InsFor(nm, ops, v)
  {
    hide InsFor;
    var body: Body := BodyFor(nm, ops, blocks);
    var b: Block :| b < |body| && i in body[b];
    var k :| 0 <= k < |body[b]| && body[b][k] == i;
    v := blocks[b][k];
  }

  lemma UsedNotErased(nm: Naming, s: Snapshot, blocks: seq<seq<Value>>, erased: set<Value>, v: Value, w: Value)
    requires NamesApart(nm, s.ops, blocks) && s.Closed() && v in s.ops && w in s.ops
    requires forall u, i {:trigger s.ops[u][i]} :: u in s.ops && 0 <= i < |s.ops[u]| ==> s.ops[u][i] !in erased
    requires DependsOn(InsFor(nm, s.ops, v), InsFor(nm, s.ops, w))
    ensures w !in erased
  {
    hide NamesApart;
    var ins := InsFor(nm, s.ops, v);
    var n :| 0 <= n < |ins.Operands()| && ins.Operands()[n] == Ref(nm.number(w));
    var i := if v.isPhi then 2 * n else n;
    assert i < |s.ops[v]| && OperandFor(nm, s.ops[v][i]) == Ref(nm.number(w));
    NamedBack(nm, s, blocks, s.ops[v][i], w);
  }

  lemma NamedBack(nm: Naming, s: Snapshot, blocks: seq<seq<Value>>, o: Value?, w: Value)
    requires NamesApart(nm, s.ops, blocks) && (o != null ==> o in s.ops) && w in s.ops
    requires OperandFor(nm, o) == Ref(nm.number(w))
    ensures o == w
  {
  }

  /** Taking the erased phis out of their blocks. */
  lemma RemovedSame(g: Cfg, nm: Naming, blocks: seq<seq<Value>>, phis: seq<Value>, s: Snapshot, t: Snapshot,
                    erased: set<Value>)
    requires Describes(g, nm, blocks, phis, s) && s.Closed() && (forall e :: e in erased ==> e in phis && e in s.ops)
    requires forall u, i {:trigger s.ops[u][i]} :: u in s.ops && 0 <= i < |s.ops[u]| ==> s.ops[u][i] !in erased
    requires t.ops.Keys == s.ops.Keys && forall u :: u in s.ops && u !in erased ==> t.ops[u] == s.ops[u]
    ensures SameRuns(g, BodyFor(nm, s.ops, blocks), BodyFor(nm, t.ops, FilteredBlocks(blocks, erased)))
  {
    hide NamesApart, LabelsApart, Snapshot.Closed, Cfg.PathTo, Strict, PhisCover, UniqueIds, UniqueSites, ClosedUnder,
         Run, Swept, BodyFor, NumbersLeft, FilteredBlocks, WellFormed;
    var body: Body := BodyFor(nm, s.ops, blocks);
    var m := NumbersLeft(nm, blocks, erased);
    WellFormedParts(g, body);
    UniqueInstructions(body);
    RemainingClosed(nm, s, blocks, erased);
    RemainingSwept(nm, s.ops, t.ops, blocks, erased);
    forall f: Machine, start: map<nat, int>, path: seq<Block>, b: Block | g.PathTo(path, b)
      ensures TraceKept(f, body, Swept(body, m), start, path)
    {
      PathWalks(g, body, path, b);
      SweepKeepsTrace(f, body, m, start, path);
    }
  }
}
