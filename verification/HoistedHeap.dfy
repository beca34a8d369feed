/** Hoisting on the use-def heap, read as code. */
module HoistedHeap {
  import opened Graphs
  import opened UseDef
  import opened SsaRun
  import opened DeadCodeElimination
  import opened HeapCode
  import opened HoistRuns
  import opened HoistStrict
  import opened TopologicalOrders

  /** The block lists of the first `n` blocks. */
  function InOrder(blocks: map<Block, seq<Value>>, n: nat): (r: seq<seq<Value>>)
    ensures |r| == n
  {
    seq(n, b => if b in blocks then blocks[b] else [])
  }

  /** Code in SSA form, all of it reachable, in which terminators are no operands. */
  ghost predicate SsaCode(g: Cfg, nm: Naming, ops: Operands, list: seq<seq<Value>>) {
    && NamesApart(nm, ops, list) && Strict(g, BodyFor(nm, ops, list))
    && (forall b: Block :: b < |list| ==> g.Reachable(b))
    && (forall b :: 0 <= b < |list| && list[b] != [] ==> IsTerminator(nm, ops, list[b][|list[b]| - 1]))
  }

  ghost predicate IsTerminator(nm: Naming, ops: Operands, t: Value) {
    !t.isPhi && t in nm.critical && forall u, i {:trigger ops[u][i]} :: u in ops && 0 <= i < |ops[u]| ==> ops[u][i] != t
  }

  /** Control enters the loop through its header only. */
  ghost predicate LoopShape(g: Cfg, loop: set<Block>, header: Block) {
    && ENTRY !in loop && header < g.Size() && (forall b :: b in loop ==> b < g.Size())
    && (forall u: Block, v: Block {:trigger g.Edge(u, v)} :: g.Edge(u, v) && v in loop && u !in loop ==> v == header)
  }

  ghost predicate LoopCode(g: Cfg, nm: Naming, ops: Operands, list: seq<seq<Value>>, loop: set<Block>, header: Block) {
    SsaCode(g, nm, ops, list) && LoopShape(g, loop, header)
  }

  /** Neither phis nor anything with an effect. */
  ghost predicate NoEffects(nm: Naming, movable: set<Value>) {
    forall v :: v in movable ==> !v.isPhi && v !in nm.critical
  }

  /** Movable instructions compute from their operands alone. */
  ghost predicate Functional(f: Machine, nm: Naming, movable: set<Value>) {
    forall v, xs: seq<int>, tr: seq<Event> {:trigger f(nm.number(v), xs, tr), v in movable} ::
      v in movable ==> f(nm.number(v), xs, tr) == f(nm.number(v), xs, [])
  }

  predicate OutOfLoop(list: seq<seq<Value>>, loop: set<Block>, v: Value) {
    forall c :: c in loop && c < |list| ==> v !in list[c]
  }

  /** An operand of the `n`-th value that moves lies outside the loop or moves before. */
  ghost predicate SlotMoves(list: seq<seq<Value>>, loop: set<Block>, moved: seq<Value>, n: nat, o: Value?)
    requires n <= |moved|
  {
    o == null || o in moved[..n] || OutOfLoop(list, loop, o)
  }

  ghost predicate Moves(ops: Operands, list: seq<seq<Value>>, loop: set<Block>, movable: set<Value>, moved: seq<Value>,
                        n: nat)
    requires n < |moved|
  {
    var v := moved[n];
    && v in ops && v in movable && v !in moved[..n]
    && (exists c :: c in loop && c < |list| && v in list[c])
    && (forall i :: 0 <= i < |ops[v]| ==> SlotMoves(list, loop, moved, n, ops[v][i]))
  }

  /** What moves, in order, and where. */
  ghost predicate MovesTo(ops: Operands, list: seq<seq<Value>>, loop: set<Block>, movable: set<Value>,
                          moved: seq<Value>, preheader: Block)
  {
    && preheader < |list| && list[preheader] != [] && preheader !in loop
    && (forall n :: 0 <= n < |moved| ==> Moves(ops, list, loop, movable, moved, n))
  }

  ghost function MoveFor(nm: Naming, ops: Operands, list: seq<seq<Value>>, loop: set<Block>, moved: seq<Value>,
                   preheader: Block): Move
  {
    Move(loop, preheader, CodeFor(nm, ops, moved), NumbersKept(nm, list, moved))
  }

  ghost function NumbersKept(nm: Naming, list: seq<seq<Value>>, moved: seq<Value>): set<nat> {
    NumbersLeft(nm, list, ToSet(moved))
  }

  lemma LoopCodeParts(g: Cfg, nm: Naming, ops: Operands, list: seq<seq<Value>>, loop: set<Block>, header: Block)
    requires LoopCode(g, nm, ops, list, loop, header)
    ensures NamesApart(nm, ops, list) && Strict(g, BodyFor(nm, ops, list)) && |list| == g.Size()
    ensures forall b :: b in loop ==> b < |list|
  {
    hide NamesApart, StrictAt, UniqueSites, IsTerminator;
  }

  /** Control enters the loop from the only block outside that precedes the header. */
  lemma EntersHere(g: Cfg, nm: Naming, ops: Operands, list: seq<seq<Value>>, loop: set<Block>, header: Block,
                   preheader: Block)
    requires LoopCode(g, nm, ops, list, loop, header) && preheader !in loop
    requires forall u: Block :: u in g.preds[header] && u !in loop ==> u == preheader
    ensures EntersFrom(g, loop, preheader)
  {
    hide NamesApart, StrictAt, UniqueSites, IsTerminator;
    forall u: Block, v: Block {:trigger g.Edge(u, v)} | g.Edge(u, v) && v in loop && u !in loop
      ensures u == preheader
    {
      assert u in g.preds[header];
    }
  }

  lemma SameNumber(nm: Naming, ops: Operands, list: seq<seq<Value>>, u: Value, v: Value)
    requires NamesApart(nm, ops, list) && u in ops && v in ops && nm.number(u) == nm.number(v)
    ensures u == v
  {
  }

  lemma ListedIn(nm: Naming, ops: Operands, list: seq<seq<Value>>, b: Block, k: nat)
    requires NamesApart(nm, ops, list) && b < |list| && k < |list[b]|
    ensures list[b][k] in ops && list[b][k] !in nm.constants && Listed(list, list[b][k])
  {
  }

  /** A slot, as an operand of the code. */
  lemma SlotOk(g: Cfg, nm: Naming, ops: Operands, list: seq<seq<Value>>, loop: set<Block>, header: Block,
               moved: seq<Value>, preheader: Block, n: nat, o: Value?)
    requires LoopCode(g, nm, ops, list, loop, header) && preheader < |list| && list[preheader] != []
    requires (forall v :: v in moved ==> v in ops) && n <= |moved| && SlotMoves(list, loop, moved, n, o)
    requires (o != null ==> o in ops) && o != list[preheader][|list[preheader]| - 1]
    ensures OperandOk(BodyFor(nm, ops, list), MoveFor(nm, ops, list, loop, moved, preheader), n, OperandFor(nm, o))
  {
    hide LoopCode, NamesApart, InsFor, NumbersKept;
    LoopCodeParts(g, nm, ops, list, loop, header);
    var body: Body, mv := BodyFor(nm, ops, list), MoveFor(nm, ops, list, loop, moved, preheader);
    if o != null && o !in nm.constants {
      if o in moved[..n] {
        var i :| 0 <= i < n && moved[i] == o;
        assert mv.moved[i].id == nm.number(o);
      } else {
        forall c | c in loop
          ensures c < |body| && forall j :: 0 <= j < |body[c]| ==> body[c][j].id != nm.number(o)
        {
          forall j | 0 <= j < |body[c]|
            ensures body[c][j].id != nm.number(o)
          {
            ListedIn(nm, ops, list, c, j);
            if nm.number(list[c][j]) == nm.number(o) {
              SameNumber(nm, ops, list, list[c][j], o);
            }
          }
        }
        ListedIn(nm, ops, list, preheader, |list[preheader]| - 1);
        if nm.number(list[preheader][|list[preheader]| - 1]) == nm.number(o) {
          SameNumber(nm, ops, list, list[preheader][|list[preheader]| - 1], o);
        }
      }
    }
  }

  /** One value that moves, as an instruction of the code. */
  lemma OneCanMove(g: Cfg, nm: Naming, s: Snapshot, list: seq<seq<Value>>, loop: set<Block>, header: Block,
                   movable: set<Value>, moved: seq<Value>, preheader: Block, n: nat)
    requires LoopCode(g, nm, s.ops, list, loop, header) && s.Closed() && NoEffects(nm, movable)
    requires MovesTo(s.ops, list, loop, movable, moved, preheader) && n < |moved|
    ensures preheader < |list|
    ensures var body, mv := BodyFor(nm, s.ops, list), MoveFor(nm, s.ops, list, loop, moved, preheader);
            FromLoop(body, loop, mv.moved[n]) && OperandsOk(body, mv, n)
  {
    hide LoopCode, NamesApart, NumbersKept, Snapshot.Closed, SlotMoves, OperandOk, OperandFor;
    var v := moved[n];
    assert Moves(s.ops, list, loop, movable, moved, n);
    MovedKnown(s.ops, list, loop, movable, moved, preheader);
    LoopCodeParts(g, nm, s.ops, list, loop, header);
    TerminatorApart(g, nm, s.ops, list, loop, header, preheader);
    var body: Body, mv := BodyFor(nm, s.ops, list), MoveFor(nm, s.ops, list, loop, moved, preheader);
    var i := mv.moved[n];
    assert i == InsFor(nm, s.ops, v) && !v.isPhi && v !in nm.critical;
    var c :| c in loop && c < |list| && v in list[c];
    var j :| 0 <= j < |list[c]| && list[c][j] == v;
    assert body[c][j] == i;
    forall o | o in i.Operands()
      ensures OperandOk(body, mv, n, o)
    {
      var k :| 0 <= k < |s.ops[v]| && OperandFor(nm, s.ops[v][k]) == o;
      SlotIn(s, v, k);
      assert SlotMoves(list, loop, moved, n, s.ops[v][k]);
      assert s.ops[v][k] != list[preheader][|list[preheader]| - 1];
      SlotOk(g, nm, s.ops, list, loop, header, moved, preheader, n, s.ops[v][k]);
    }
  }

  lemma SlotIn(s: Snapshot, v: Value, k: nat)
    requires s.Closed() && v in s.ops && k < |s.ops[v]|
    ensures s.ops[v][k] != null ==> s.ops[v][k] in s.ops
  {
  }

  lemma TerminatorApart(g: Cfg, nm: Naming, ops: Operands, list: seq<seq<Value>>, loop: set<Block>, header: Block,
                        preheader: Block)
    requires LoopCode(g, nm, ops, list, loop, header) && preheader < |list| && list[preheader] != []
    ensures var t := list[preheader][|list[preheader]| - 1];
            && !t.isPhi && t in nm.critical
            && forall u, i {:trigger ops[u][i]} :: u in ops && 0 <= i < |ops[u]| ==> ops[u][i] != t
  {
    hide NamesApart, Strict;
    assert IsTerminator(nm, ops, list[preheader][|list[preheader]| - 1]);
  }

  lemma MovedKnown(ops: Operands, list: seq<seq<Value>>, loop: set<Block>, movable: set<Value>, moved: seq<Value>,
                   preheader: Block)
    requires MovesTo(ops, list, loop, movable, moved, preheader)
    ensures forall v :: v in moved ==> v in ops && v in movable
    ensures forall i, n :: 0 <= i < n < |moved| ==> moved[i] != moved[n]
  {
    hide SlotMoves;
    forall v | v in moved
      ensures v in ops && v in movable
    {
      var n :| 0 <= n < |moved| && moved[n] == v;
      assert Moves(ops, list, loop, movable, moved, n);
    }
    forall i, n | 0 <= i < n < |moved|
      ensures moved[i] != moved[n]
    {
      assert Moves(ops, list, loop, movable, moved, n);
      assert moved[i] in moved[..n];
    }
  }

  lemma StaysExactly(nm: Naming, ops: Operands, list: seq<seq<Value>>, moved: seq<Value>, b: Block, k: nat)
    requires NamesApart(nm, ops, list) && b < |list| && k < |list[b]| && forall v :: v in moved ==> v in ops
    ensures InsFor(nm, ops, list[b][k]).id in NumbersKept(nm, list, moved) <==>
            InsFor(nm, ops, list[b][k]) !in CodeFor(nm, ops, moved)
  {
    hide NamesApart, InsFor, NumbersLeft, Listed;
    ListedIn(nm, ops, list, b, k);
    var v := list[b][k];
    LeftExactly(nm, ops, list, ToSet(moved), v);
    if v in moved {
      var n :| 0 <= n < |moved| && moved[n] == v;
      assert CodeFor(nm, ops, moved)[n] == InsFor(nm, ops, v);
    } else if InsFor(nm, ops, v) in CodeFor(nm, ops, moved) {
      var n :| 0 <= n < |moved| && CodeFor(nm, ops, moved)[n] == InsFor(nm, ops, v);
      SameNumber(nm, ops, list, moved[n], v);
    }
  }

  lemma HeapCanMove(g: Cfg, nm: Naming, s: Snapshot, list: seq<seq<Value>>, loop: set<Block>, header: Block,
                    movable: set<Value>, moved: seq<Value>, preheader: Block)
    requires LoopCode(g, nm, s.ops, list, loop, header) && s.Closed() && NoEffects(nm, movable)
    requires MovesTo(s.ops, list, loop, movable, moved, preheader)
    requires forall u: Block :: u in g.preds[header] && u !in loop ==> u == preheader
    ensures CanMove(g, BodyFor(nm, s.ops, list), MoveFor(nm, s.ops, list, loop, moved, preheader))
  {
    hide LoopCode, NamesApart, NumbersKept, Snapshot.Closed, FromLoop, OperandsOk, EntersFrom, Strict, Moves, InsFor;
    var body: Body := BodyFor(nm, s.ops, list);
    var mv := MoveFor(nm, s.ops, list, loop, moved, preheader);
    LoopCodeParts(g, nm, s.ops, list, loop, header);
    EntersHere(g, nm, s.ops, list, loop, header, preheader);
    TerminatorApart(g, nm, s.ops, list, loop, header, preheader);
    MovedKnown(s.ops, list, loop, movable, moved, preheader);
    forall n | 0 <= n < |mv.moved|
      ensures FromLoop(body, mv.loop, mv.moved[n]) && OperandsOk(body, mv, n)
    {
      OneCanMove(g, nm, s, list, loop, header, movable, moved, preheader, n);
    }
    forall i, n | 0 <= i < n < |mv.moved|
      ensures mv.moved[i].id != mv.moved[n].id
    {
      if nm.number(moved[i]) == nm.number(moved[n]) {
        SameNumber(nm, s.ops, list, moved[i], moved[n]);
      }
    }
    forall b, k {:trigger body[b][k]} | 0 <= b < |body| && 0 <= k < |body[b]|
      ensures body[b][k].id in mv.stay <==> body[b][k] !in mv.moved
    {
      StaysExactly(nm, s.ops, list, moved, b, k);
    }
  }

  /** The new lists, read as code, are the moved body. */
  lemma HeapMoved(nm: Naming, ops: Operands, list: seq<seq<Value>>, list': seq<seq<Value>>, loop: set<Block>,
                  moved: seq<Value>, preheader: Block)
    requires NamesApart(nm, ops, list) && preheader < |list| == |list'| && list[preheader] != []
    requires forall b :: 0 <= b < |list| && b != preheader ==> list'[b] == Filter(list[b], ToSet(moved))
    requires var n := |list[preheader]| - 1; list'[preheader] == list[preheader][..n] + moved + [list[preheader][n]]
    ensures BodyFor(nm, ops, list') ==
            MovedBody(BodyFor(nm, ops, list), MoveFor(nm, ops, list, loop, moved, preheader))
  {
    hide NamesApart, NumbersLeft, InsFor, Kept, Filter;
    var body: Body, mv := BodyFor(nm, ops, list), MoveFor(nm, ops, list, loop, moved, preheader);
    forall b | 0 <= b < |list|
      ensures CodeFor(nm, ops, list'[b]) == MovedCode(body, mv, b, |body[b]|)
    {
      assert body[b][..|body[b]|] == body[b];
      if b == preheader {
        var n := |list[b]| - 1;
        assert CodeFor(nm, ops, list'[b]) ==
               CodeFor(nm, ops, list[b])[..n] + CodeFor(nm, ops, moved) + [InsFor(nm, ops, list[b][n])];
      } else {
        forall v | v in list[b]
          ensures v in ops && Listed(list, v)
        {
          var k :| 0 <= k < |list[b]| && list[b][k] == v;
          ListedIn(nm, ops, list, b, k);
        }
        FilteredKept(nm, ops, ops, list, ToSet(moved), list[b]);
      }
    }
  }

  lemma FunctionalAlone(f: Machine, nm: Naming, ops: Operands, list: seq<seq<Value>>, loop: set<Block>,
                        movable: set<Value>, moved: seq<Value>, preheader: Block)
    requires Functional(f, nm, movable) && forall v :: v in moved ==> v in movable
    ensures ComputesAlone(f, MoveFor(nm, ops, list, loop, moved, preheader))
  {
    hide InsFor, NumbersKept;
    var mv := MoveFor(nm, ops, list, loop, moved, preheader);
    forall i, xs: seq<int>, tr: seq<Event> {:trigger f(i.id, xs, tr), i in mv.moved} | i in mv.moved
      ensures f(i.id, xs, tr) == f(i.id, xs, [])
    {
      var n :| 0 <= n < |mv.moved| && mv.moved[n] == i;
      assert moved[n] in movable;
      assert f(nm.number(moved[n]), xs, tr) == f(nm.number(moved[n]), xs, []);
    }
  }

  /** No run changes for which the movable instructions compute from their operands alone. */
  ghost predicate HoistKeepsRuns(g: Cfg, nm: Naming, movable: set<Value>, body: Body, body': Body) {
    forall f: Machine, start: map<nat, int>, path: seq<Block>, b: Block
      {:trigger TraceKept(f, body, body', start, path), g.PathTo(path, b)} ::
      Functional(f, nm, movable) && g.PathTo(path, b) ==> TraceKept(f, body, body', start, path)
  }

  lemma HeapHoisted(g: Cfg, nm: Naming, s: Snapshot, list: seq<seq<Value>>, list': seq<seq<Value>>, loop: set<Block>,
                    header: Block, movable: set<Value>, moved: seq<Value>, preheader: Block)
    requires LoopCode(g, nm, s.ops, list, loop, header) && s.Closed() && NoEffects(nm, movable)
    requires MovesTo(s.ops, list, loop, movable, moved, preheader)
    requires forall u: Block :: u in g.preds[header] && u !in loop ==> u == preheader
    requires |list'| == |list|
    requires forall b :: 0 <= b < |list| && b != preheader ==> list'[b] == Filter(list[b], ToSet(moved))
    requires var n := |list[preheader]| - 1; list'[preheader] == list[preheader][..n] + moved + [list[preheader][n]]
    ensures HoistKeepsRuns(g, nm, movable, BodyFor(nm, s.ops, list), BodyFor(nm, s.ops, list'))
  {
    hide LoopCode, NamesApart, NumbersKept, Snapshot.Closed, Strict, Moves, CanMove, MoveFor, Functional, TraceKept,
         Filter, BodyFor, ComputesAlone, MovedBody, Cfg.PathTo;
    var body: Body := BodyFor(nm, s.ops, list);
    LoopCodeParts(g, nm, s.ops, list, loop, header);
    HeapCanMove(g, nm, s, list, loop, header, movable, moved, preheader);
    HeapMoved(nm, s.ops, list, list', loop, moved, preheader);
    MovedKnown(s.ops, list, loop, movable, moved, preheader);
    forall f: Machine, start: map<nat, int>, path: seq<Block>, b: Block |
      Functional(f, nm, movable) && g.PathTo(path, b)
      ensures TraceKept(f, body, BodyFor(nm, s.ops, list'), start, path)
    {
      FunctionalAlone(f, nm, s.ops, list, loop, movable, moved, preheader);
      HoistingKeepsRuns(f, g, body, MoveFor(nm, s.ops, list, loop, moved, preheader), start, path, b);
    }
  }

  // ----- one loop after another -----

  lemma {:induction false} FilterMember(vs: seq<Value>, gone: set<Value>, v: Value)
    ensures v in Filter(vs, gone) <==> v in vs && v !in gone
    decreases |vs|
  {
    if vs != [] {
      FilterMember(vs[..|vs| - 1], gone, v);
      assert vs == vs[..|vs| - 1] + [vs[|vs| - 1]];
    }
  }

  /** The new lists hold what the old ones did. */
  lemma SameListed(nm: Naming, ops: Operands, list: seq<seq<Value>>, list': seq<seq<Value>>, loop: set<Block>,
                   movable: set<Value>, moved: seq<Value>, preheader: Block)
    requires NamesApart(nm, ops, list) && MovesTo(ops, list, loop, movable, moved, preheader) && |list'| == |list|
    requires forall b :: 0 <= b < |list| && b != preheader ==> list'[b] == Filter(list[b], ToSet(moved))
    requires var n := |list[preheader]| - 1; list'[preheader] == list[preheader][..n] + moved + [list[preheader][n]]
    ensures NamesApart(nm, ops, list')
  {
    hide Filter, SlotMoves;
    forall b, v | 0 <= b < |list'| && v in list'[b]
      ensures v in ops && v !in nm.constants
    {
      if v in moved {
        var n :| 0 <= n < |moved| && moved[n] == v;
        assert Moves(ops, list, loop, movable, moved, n);
        var c :| c in loop && c < |list| && v in list[c];
      } else if b != preheader {
        FilterMember(list[b], ToSet(moved), v);
        assert v in list[b];
      } else {
        assert v in list[b];
      }
    }
  }

  /** Every block ends as before. */
  lemma SameEnd(nm: Naming, list: seq<seq<Value>>, list': seq<seq<Value>>, movable: set<Value>, moved: seq<Value>,
                preheader: Block, b: Block)
    requires preheader < |list| == |list'| && b < |list| && list[b] != [] && NoEffects(nm, movable)
    requires list[b][|list[b]| - 1] in nm.critical && list[preheader] != [] && forall v :: v in moved ==> v in movable
    requires forall c :: 0 <= c < |list| && c != preheader ==> list'[c] == Filter(list[c], ToSet(moved))
    requires var n := |list[preheader]| - 1; list'[preheader] == list[preheader][..n] + moved + [list[preheader][n]]
    ensures list'[b] != [] && list'[b][|list'[b]| - 1] == list[b][|list[b]| - 1]
  {
  }

  lemma StillSsa(g: Cfg, nm: Naming, s: Snapshot, list: seq<seq<Value>>, list': seq<seq<Value>>, loop: set<Block>,
                 header: Block, movable: set<Value>, moved: seq<Value>, preheader: Block)
    requires LoopCode(g, nm, s.ops, list, loop, header) && s.Closed() && NoEffects(nm, movable)
    requires MovesTo(s.ops, list, loop, movable, moved, preheader)
    requires forall u: Block :: u in g.preds[header] && u !in loop ==> u == preheader
    requires |list'| == |list|
    requires forall b :: 0 <= b < |list| && b != preheader ==> list'[b] == Filter(list[b], ToSet(moved))
    requires var n := |list[preheader]| - 1; list'[preheader] == list[preheader][..n] + moved + [list[preheader][n]]
    ensures SsaCode(g, nm, s.ops, list')
  {
    hide NamesApart, NumbersKept, Snapshot.Closed, Strict, Moves, CanMove, MoveFor, Filter, BodyFor, MovedBody,
         NoEffects, LoopShape, IsTerminator;
    LoopCodeParts(g, nm, s.ops, list, loop, header);
    HeapCanMove(g, nm, s, list, loop, header, movable, moved, preheader);
    HeapMoved(nm, s.ops, list, list', loop, moved, preheader);
    MovedKnown(s.ops, list, loop, movable, moved, preheader);
    SameListed(nm, s.ops, list, list', loop, movable, moved, preheader);
    var body: Body := BodyFor(nm, s.ops, list);
    assert forall b: Block :: b < |body| ==> g.Reachable(b);
    MovedStrict(g, body, MoveFor(nm, s.ops, list, loop, moved, preheader));
    forall b | 0 <= b < |list'| && list'[b] != []
      ensures IsTerminator(nm, s.ops, list'[b][|list'[b]| - 1])
    {
      EndKept(g, nm, s, list, list', loop, header, movable, moved, preheader, b);
    }
  }

  lemma EndKept(g: Cfg, nm: Naming, s: Snapshot, list: seq<seq<Value>>, list': seq<seq<Value>>, loop: set<Block>,
                header: Block, movable: set<Value>, moved: seq<Value>, preheader: Block, b: Block)
    requires LoopCode(g, nm, s.ops, list, loop, header) && NoEffects(nm, movable)
    requires preheader < |list| && list[preheader] != [] && forall v :: v in moved ==> v in movable
    requires |list'| == |list| && b < |list| && list'[b] != []
    requires forall c :: 0 <= c < |list| && c != preheader ==> list'[c] == Filter(list[c], ToSet(moved))
    requires var n := |list[preheader]| - 1; list'[preheader] == list[preheader][..n] + moved + [list[preheader][n]]
    ensures IsTerminator(nm, s.ops, list'[b][|list'[b]| - 1])
  {
    hide NamesApart, Strict, LoopShape, NoEffects;
    var v := list'[b][|list'[b]| - 1];
    if list[b] == [] {
      FilterMember(list[b], ToSet(moved), v);
      assert false;
    }
    assert IsTerminator(nm, s.ops, list[b][|list[b]| - 1]);
    SameEnd(nm, list, list', movable, moved, preheader, b);
  }

  lemma KeepsRunsTrans(g: Cfg, nm: Naming, movable: set<Value>, a: Body, b: Body, c: Body)
    requires HoistKeepsRuns(g, nm, movable, a, b) && HoistKeepsRuns(g, nm, movable, b, c)
    ensures HoistKeepsRuns(g, nm, movable, a, c)
  {
    hide Run, Cfg.PathTo, PathIn, Functional;
    forall f: Machine, start: map<nat, int>, path: seq<Block>, x: Block |
      Functional(f, nm, movable) && g.PathTo(path, x)
      ensures TraceKept(f, a, c, start, path)
    {
      assert TraceKept(f, a, b, start, path) && TraceKept(f, b, c, start, path);
    }
  }

  lemma KeepsRunsSelf(g: Cfg, nm: Naming, movable: set<Value>, body: Body)
    requires |body| == g.Size()
    ensures HoistKeepsRuns(g, nm, movable, body, body)
  {
    hide Run, Cfg.PathTo, Functional;
    forall f: Machine, start: map<nat, int>, path: seq<Block>, b: Block |
      Functional(f, nm, movable) && g.PathTo(path, b)
      ensures TraceKept(f, body, body, start, path)
    {
      PathWalks(g, body, path, b);
    }
  }
}
