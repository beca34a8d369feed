/** Hoisting keeps code in SSA form, so it can be done for one loop after another. */
module HoistStrict {
  import opened Graphs
  import opened SsaRun
  import opened DeadCodeElimination
  import opened HoistRuns

  // ----- positions in a block that loses instructions -----

  lemma {:induction false} KeptAt(code: seq<Ins>, m: set<nat>, k: nat)
    requires k < |code| && code[k].id in m
    ensures var j := |Kept(code[..k], m)|; j < |Kept(code, m)| && Kept(code, m)[j] == code[k]
    decreases |code|
  {
    KeptLast(code, m);
    if k < |code| - 1 {
      KeptAt(code[..|code| - 1], m, k);
      assert code[..|code| - 1][..k] == code[..k];
    }
  }

  lemma {:induction false} KeptGrows(code: seq<Ins>, m: set<nat>, j: nat, k: nat)
    requires j < k <= |code| && code[j].id in m
    ensures |Kept(code[..j], m)| < |Kept(code[..k], m)|
    decreases k
  {
    KeptLast(code[..k], m);
    assert code[..k][..k - 1] == code[..k - 1];
    if j < k - 1 {
      KeptGrows(code, m, j, k - 1);
    }
  }

  lemma {:induction false} KeptFrom(code: seq<Ins>, m: set<nat>, j: nat) returns (k: nat)
    requires j < |Kept(code, m)|
    ensures k < |code| && code[k].id in m && |Kept(code[..k], m)| == j && Kept(code, m)[j] == code[k]
    decreases |code|
  {
    var n := |code| - 1;
    KeptLast(code, m);
    if j < |Kept(code[..n], m)| {
      k := KeptFrom(code[..n], m, j);
      assert code[..n][..k] == code[..k];
    } else {
      k := n;
    }
  }

  // ----- where instructions are now -----

  /** Where an instruction that stays is after the move. */
  function NewPos(body: Body, mv: Move, b: Block, k: nat): nat
    requires b < |body| && k < |body[b]|
  {
    if b != mv.preheader then |Kept(body[b][..k], mv.stay)| else if k < |body[b]| - 1 then k else k + |mv.moved|
  }

  lemma StaysAt(g: Cfg, body: Body, mv: Move, b: Block, k: nat)
    requires CanMove(g, body, mv) && b < |body| && k < |body[b]| && (body[b][k] !in mv.moved || b == mv.preheader)
    ensures var body', j := MovedBody(body, mv), NewPos(body, mv, b, k);
            j < |body'[b]| && body'[b][j] == body[b][k]
  {
    hide CanMove;
    PhiStays(g, body, mv, b, k);
    assert body[b][..|body[b]|] == body[b];
    if b != mv.preheader {
      KeptAt(body[b], mv.stay, k);
    }
  }

  lemma MovedAt(g: Cfg, body: Body, mv: Move, i: nat)
    requires CanMove(g, body, mv) && i < |mv.moved|
    ensures mv.preheader < |body| && |body[mv.preheader]| > 0
    ensures var body', j := MovedBody(body, mv), |body[mv.preheader]| - 1 + i;
            j < |body'[mv.preheader]| && body'[mv.preheader][j] == mv.moved[i]
  {
    hide CanMove;
    MoveShape(g, body, mv);
  }

  /** What stands in a block now stood there before, or has come. */
  lemma ComesFromWhere(g: Cfg, body: Body, mv: Move, b: Block, j: nat) returns (k: nat)
    requires CanMove(g, body, mv) && b < |body| && j < |MovedBody(body, mv)[b]|
    ensures var x, body' := body[mv.preheader], MovedBody(body, mv);
            || (k < |body[b]| && NewPos(body, mv, b, k) == j && body'[b][j] == body[b][k] &&
                (body[b][k] !in mv.moved || b == mv.preheader))
            || (b == mv.preheader && k < |mv.moved| && j == |x| - 1 + k && body'[b][j] == mv.moved[k])
  {
    hide CanMove;
    MoveShape(g, body, mv);
    assert body[b][..|body[b]|] == body[b];
    if b != mv.preheader {
      k := KeptFrom(body[b], mv.stay, j);
      PhiStays(g, body, mv, b, k);
    } else {
      var n := |body[b]| - 1;
      k := if j < n then j else if j < n + |mv.moved| then j - n else n;
    }
  }

  /** No instruction of the preheader moves. */
  lemma PreheaderStays(g: Cfg, body: Body, mv: Move, k: nat)
    requires CanMove(g, body, mv) && UniqueSites(body) && mv.preheader < |body| && k < |body[mv.preheader]|
    ensures body[mv.preheader][k] !in mv.moved
  {
    hide CanMove, UniqueSites, OperandsOk;
    if body[mv.preheader][k] in mv.moved {
      var n :| 0 <= n < |mv.moved| && mv.moved[n] == body[mv.preheader][k];
      MovedIs(g, body, mv, n);
      var c: Block, j: nat :| c in mv.loop && c < |body| && j < |body[c]| && body[c][j] == mv.moved[n];
      assert DefinedAt(body, c, j, mv.moved[n].id) && DefinedAt(body, mv.preheader, k, mv.moved[n].id);
      SameSite(body, c, j, mv.preheader, k, mv.moved[n].id);
      MoveShape(g, body, mv);
      OutsideLoop(g, mv);
    }
  }

  /** The place that a value was defined in. */
  datatype Origin = Stayed(k: nat) | Came(i: nat)

  ghost predicate IsOrigin(body: Body, mv: Move, b: Block, j: nat, x: nat, o: Origin) {
    b < |body| &&
    match o
    case Stayed(k) => DefinedAt(body, b, k, x) && body[b][k] !in mv.moved && NewPos(body, mv, b, k) == j
    case Came(i) =>
      b == mv.preheader && |body[b]| > 0 && i < |mv.moved| && mv.moved[i].id == x && j == |body[b]| - 1 + i
  }

  lemma OriginOf(g: Cfg, body: Body, mv: Move, b: Block, j: nat, x: nat) returns (o: Origin)
    requires CanMove(g, body, mv) && UniqueSites(body) && DefinedAt(MovedBody(body, mv), b, j, x)
    ensures IsOrigin(body, mv, b, j, x, o)
  {
    hide CanMove, UniqueSites, NewPos;
    MoveShape(g, body, mv);
    var k := ComesFromWhere(g, body, mv, b, j);
    if k < |body[b]| && NewPos(body, mv, b, k) == j && MovedBody(body, mv)[b][j] == body[b][k] &&
       (body[b][k] !in mv.moved || b == mv.preheader) {
      if b == mv.preheader {
        PreheaderStays(g, body, mv, k);
      }
      o := Stayed(k);
    } else {
      o := Came(k);
    }
  }

  lemma OriginsMeet(g: Cfg, body: Body, mv: Move, b: Block, j: nat, o: Origin, b': Block, j': nat, o': Origin, x: nat)
    requires CanMove(g, body, mv) && UniqueSites(body) && IsOrigin(body, mv, b, j, x, o)
    requires IsOrigin(body, mv, b', j', x, o')
    ensures b == b' && j == j'
  {
    hide CanMove, UniqueSites, NewPos;
    if o.Stayed? && o'.Stayed? {
      SameSite(body, b, o.k, b', o'.k, x);
    } else if o.Came? && o'.Came? {
      MovedIs(g, body, mv, o.i);
    } else if o.Stayed? {
      NotAMoved(g, body, mv, o'.i, b, o.k);
    } else {
      NotAMoved(g, body, mv, o.i, b', o'.k);
    }
  }

  lemma MovedUnique(g: Cfg, body: Body, mv: Move)
    requires CanMove(g, body, mv) && UniqueSites(body)
    ensures UniqueSites(MovedBody(body, mv))
  {
    hide CanMove, MovedBody, IsOrigin;
    var body': Body := MovedBody(body, mv);
    forall b: Block, k: nat, c: Block, j: nat, x | DefinedAt(body', b, k, x) && DefinedAt(body', c, j, x)
      ensures b == c && k == j
    {
      var o := OriginOf(g, body, mv, b, k, x);
      var o' := OriginOf(g, body, mv, c, j, x);
      OriginsMeet(g, body, mv, b, k, o, c, j, o', x);
    }
  }

  // ----- dominance -----

  /** The way into the loop: from the preheader on it stays inside. */
  lemma {:induction false} WayIn(g: Cfg, loop: set<Block>, preheader: Block, w: seq<Block>, c: Block)
      returns (tail: seq<Block>)
    requires EntersFrom(g, loop, preheader) && c in loop && g.PathTo(w, c)
    ensures forall i :: 0 <= i < |tail| ==> tail[i] in loop
    ensures forall q :: g.PathTo(q, preheader) ==> g.PathTo(q + tail, c)
    decreases |w|
  {
    var u := w[|w| - 2];
    assert g.Edge(u, c);
    if u in loop {
      var front := WayIn(g, loop, preheader, w[..|w| - 1], u);
      tail := front + [c];
      forall q | g.PathTo(q, preheader)
        ensures g.PathTo(q + tail, c)
      {
        PathExtend(g, q + front, u, c);
        assert q + front + [c] == q + tail;
      }
    } else {
      tail := [c];
      forall q | g.PathTo(q, preheader)
        ensures g.PathTo(q + tail, c)
      {
        PathExtend(g, q, u, c);
      }
    }
  }

  /** What dominates a block of the loop from outside dominates the preheader. */
  lemma OutsideDominates(g: Cfg, loop: set<Block>, preheader: Block, d: Block, c: Block, w: seq<Block>)
    requires EntersFrom(g, loop, preheader) && c in loop && g.PathTo(w, c) && d !in loop && g.Dominates(d, c)
    ensures g.Dominates(d, preheader)
  {
    var tail := WayIn(g, loop, preheader, w, c);
    forall q | g.PathTo(q, preheader)
      ensures d in q
    {
      assert d in q + tail;
    }
  }

  // ----- what is at hand -----

  ghost predicate AfterAll(body: Body, mv: Move, b: Block, k: nat, j: nat)
    requires b < |body| && k <= |body[b]|
  {
    forall i: nat :: i < k && body[b][i] !in mv.moved ==> NewPos(body, mv, b, i) < j
  }

  /** What was at hand at a place is so at the place that corresponds to it. */
  lemma AvailableMoved(g: Cfg, body: Body, mv: Move, b: Block, k: nat, j: nat, x: nat, w: seq<Block>)
    requires CanMove(g, body, mv) && UniqueSites(body) && g.PathTo(w, b) && b < |body| && k <= |body[b]|
    requires AfterAll(body, mv, b, k, j) && Available(g, body, b, k, x)
    ensures Available(g, MovedBody(body, mv), b, j, x)
  {
    hide CanMove, UniqueSites, MovedBody, NewPos, Cfg.StrictlyDominates, Cfg.PathTo, IsOrigin;
    var body': Body := MovedBody(body, mv);
    if IsDefined(body, x) {
      var c: Block, l: nat :| DefinedAt(body, c, l, x) && Reaches(g, body, c, l, b, k);
      if body[c][l] in mv.moved {
        var i :| 0 <= i < |mv.moved| && mv.moved[i] == body[c][l];
        MovedAt(g, body, mv, i);
        MovedReaches(g, body, mv, i, c, l, b, k, w);
        assert DefinedAt(body', mv.preheader, |body[mv.preheader]| - 1 + i, x);
        assert Reaches(g, body', mv.preheader, |body[mv.preheader]| - 1 + i, b, j);
      } else {
        StaysAt(g, body, mv, c, l);
        assert DefinedAt(body', c, NewPos(body, mv, c, l), x);
        assert Reaches(g, body', c, NewPos(body, mv, c, l), b, j);
      }
    } else {
      DefinedBefore(g, body, mv, x);
    }
  }

  lemma DefinedBefore(g: Cfg, body: Body, mv: Move, x: nat)
    requires CanMove(g, body, mv) && UniqueSites(body)
    ensures IsDefined(MovedBody(body, mv), x) ==> IsDefined(body, x)
  {
    hide CanMove, UniqueSites, MovedBody, NewPos;
    if b: Block, j: nat :| DefinedAt(MovedBody(body, mv), b, j, x) {
      var o := OriginOf(g, body, mv, b, j, x);
      match o {
        case Stayed(k) => assert DefinedAt(body, b, k, x);
        case Came(i) =>
          MovedIs(g, body, mv, i);
          var c: Block, l: nat :| c in mv.loop && c < |body| && l < |body[c]| && body[c][l] == mv.moved[i];
          assert DefinedAt(body, c, l, x);
      }
    }
  }

  /** A moved value is at hand, from the preheader, wherever it was. */
  lemma MovedReaches(g: Cfg, body: Body, mv: Move, i: nat, c: Block, l: nat, b: Block, k: nat, w: seq<Block>)
    requires CanMove(g, body, mv) && UniqueSites(body) && i < |mv.moved| && g.PathTo(w, b)
    requires DefinedAt(body, c, l, mv.moved[i].id) && Reaches(g, body, c, l, b, k)
    ensures g.StrictlyDominates(mv.preheader, b)
  {
    hide CanMove, UniqueSites, Cfg.Dominates, OperandsOk, Cfg.PathTo;
    MovedIs(g, body, mv, i);
    MoveShape(g, body, mv);
    var c': Block, l': nat :| c' in mv.loop && c' < |body| && l' < |body[c']| && body[c'][l'] == mv.moved[i];
    assert DefinedAt(body, c', l', mv.moved[i].id);
    SameSite(body, c, l, c', l', mv.moved[i].id);
    PreheaderDominates(g, mv.loop, mv.preheader, c);
    if c != b {
      StrictTransitive(g, mv.preheader, c, b, w);
    }
  }

  /** The operands of a moved instruction are at hand where it is computed. */
  lemma OperandMoved(g: Cfg, body: Body, mv: Move, n: nat, o: Operand)
    requires CanMove(g, body, mv) && Strict(g, body) && n < |mv.moved| && o in mv.moved[n].Operands()
    requires forall b: Block :: b < |body| ==> g.Reachable(b)
    ensures mv.preheader < |body| && |body[mv.preheader]| > 0
    ensures OperandAvailable(g, MovedBody(body, mv), mv.preheader, |body[mv.preheader]| - 1 + n, o)
  {
    hide CanMove, Strict, UniqueSites, MovedBody, Available, Cfg.PathTo, Cfg.StrictlyDominates;
    StrictShape(g, body);
    MovedIs(g, body, mv, n);
    assert OperandOk(body, mv, n, o);
    if o.Ref? {
      if i :| 0 <= i < n && mv.moved[i].id == o.id {
        EarlierMoved(g, body, mv, n, i);
      } else {
        var c: Block, l: nat :| c in mv.loop && c < |body| && l < |body[c]| && body[c][l] == mv.moved[n];
        StrictMeans(g, body, c, l);
        assert g.Reachable(c);
        var w :| g.PathTo(w, c);
        OutsideOperand(g, body, mv, n, o.id, c, l, w);
      }
    }
  }

  lemma EarlierMoved(g: Cfg, body: Body, mv: Move, n: nat, i: nat)
    requires CanMove(g, body, mv) && i < n < |mv.moved|
    ensures mv.preheader < |body| && |body[mv.preheader]| > 0
    ensures Available(g, MovedBody(body, mv), mv.preheader, |body[mv.preheader]| - 1 + n, mv.moved[i].id)
  {
    hide CanMove, MovedBody, Cfg.StrictlyDominates;
    MovedAt(g, body, mv, i);
    var p, m := mv.preheader, |body[mv.preheader]| - 1;
    assert DefinedAt(MovedBody(body, mv), p, m + i, mv.moved[i].id);
    assert Reaches(g, MovedBody(body, mv), p, m + i, p, m + n);
  }

  lemma OutsideOperand(g: Cfg, body: Body, mv: Move, n: nat, x: nat, c: Block, l: nat, w: seq<Block>)
    requires CanMove(g, body, mv) && UniqueSites(body) && n < |mv.moved| && mv.preheader < |body|
    requires |body[mv.preheader]| > 0 && NotInLoop(body, mv.loop, x) && x != Terminator(body, mv).id
    requires c in mv.loop && c < |body| && l < |body[c]| && Available(g, body, c, l, x) && g.PathTo(w, c)
    ensures Available(g, MovedBody(body, mv), mv.preheader, |body[mv.preheader]| - 1 + n, x)
  {
    hide CanMove, UniqueSites, MovedBody, Cfg.Dominates, Cfg.PathTo;
    var body': Body, p, m := MovedBody(body, mv), mv.preheader, |body[mv.preheader]| - 1;
    if IsDefined(body, x) {
      var d: Block, j: nat :| DefinedAt(body, d, j, x) && Reaches(g, body, d, j, c, l);
      assert d !in mv.loop;
      MoveShape(g, body, mv);
      OutsideDominates(g, mv.loop, p, d, c, w);
      if body[d][j] in mv.moved {
        var i :| 0 <= i < |mv.moved| && mv.moved[i] == body[d][j];
        MovedIs(g, body, mv, i);
      }
      StaysAt(g, body, mv, d, j);
      assert DefinedAt(body', d, NewPos(body, mv, d, j), x);
      assert Reaches(g, body', d, NewPos(body, mv, d, j), p, m + n);
    } else {
      DefinedBefore(g, body, mv, x);
    }
  }

  // ----- SSA form -----

  lemma AfterPos(g: Cfg, body: Body, mv: Move, b: Block, k: nat)
    requires CanMove(g, body, mv) && b < |body| && k < |body[b]|
    ensures AfterAll(body, mv, b, k, NewPos(body, mv, b, k))
  {
    hide CanMove;
    forall i: nat | i < k && body[b][i] !in mv.moved
      ensures NewPos(body, mv, b, i) < NewPos(body, mv, b, k)
    {
      PhiStays(g, body, mv, b, i);
      if b != mv.preheader {
        KeptGrows(body[b], mv.stay, i, k);
      }
    }
  }

  lemma AfterEnd(g: Cfg, body: Body, mv: Move, b: Block)
    requires CanMove(g, body, mv) && b < |body|
    ensures AfterAll(body, mv, b, |body[b]|, |MovedBody(body, mv)[b]|)
  {
    hide CanMove, MovedBody;
    forall i: nat | i < |body[b]| && body[b][i] !in mv.moved
      ensures NewPos(body, mv, b, i) < |MovedBody(body, mv)[b]|
    {
      StaysAt(g, body, mv, b, i);
    }
  }

  lemma StaysStrict(g: Cfg, body: Body, mv: Move, b: Block, k: nat)
    requires CanMove(g, body, mv) && Strict(g, body) && b < |body| && k < |body[b]|
    requires forall b: Block :: b < |body| ==> g.Reachable(b)
    requires body[b][k] !in mv.moved || b == mv.preheader
    ensures var j := NewPos(body, mv, b, k);
            j < |MovedBody(body, mv)[b]| && StrictAt(g, MovedBody(body, mv), b, j)
  {
    hide CanMove, Strict, UniqueSites, MovedBody, NewPos, Available, AfterAll, Cfg.PathTo, FromPred;
    var body': Body, j := MovedBody(body, mv), NewPos(body, mv, b, k);
    StrictShape(g, body);
    StrictMeans(g, body, b, k);
    StaysAt(g, body, mv, b, k);
    match body[b][k]
    case Ins(_, ops, _) =>
      AfterPos(g, body, mv, b, k);
      assert g.Reachable(b);
      var w :| g.PathTo(w, b);
      forall i | 0 <= i < |ops|
        ensures OperandAvailable(g, body', b, j, ops[i])
      {
        assert OperandAvailable(g, body, b, k, ops[i]);
        if ops[i].Ref? {
          AvailableMoved(g, body, mv, b, k, j, ops[i].id, w);
        }
      }
    case Phi(_, incoming) =>
      forall p: Block | p < |body'| && g.Edge(p, b)
        ensures OperandAvailable(g, body', p, |body'[p]|, FromPred(incoming, p))
      {
        AfterEnd(g, body, mv, p);
        assert g.Reachable(p);
        var w :| g.PathTo(w, p);
        if FromPred(incoming, p).Ref? {
          AvailableMoved(g, body, mv, p, |body[p]|, |body'[p]|, FromPred(incoming, p).id, w);
        }
      }
  }

  lemma CameStrict(g: Cfg, body: Body, mv: Move, n: nat)
    requires CanMove(g, body, mv) && Strict(g, body) && n < |mv.moved|
    requires forall b: Block :: b < |body| ==> g.Reachable(b)
    ensures mv.preheader < |body| && |body[mv.preheader]| > 0
    ensures var j := |body[mv.preheader]| - 1 + n;
            j < |MovedBody(body, mv)[mv.preheader]| && StrictAt(g, MovedBody(body, mv), mv.preheader, j)
  {
    hide CanMove, Strict, MovedBody, OperandAvailable;
    MovedAt(g, body, mv, n);
    MovedIs(g, body, mv, n);
    var i := mv.moved[n];
    forall k | 0 <= k < |i.ops|
      ensures OperandAvailable(g, MovedBody(body, mv), mv.preheader, |body[mv.preheader]| - 1 + n, i.ops[k])
    {
      assert i.ops[k] in i.Operands();
      OperandMoved(g, body, mv, n, i.ops[k]);
    }
  }

  /** The hoisted code is in SSA form. */
  lemma MovedStrict(g: Cfg, body: Body, mv: Move)
    requires CanMove(g, body, mv) && Strict(g, body) && forall b: Block :: b < |body| ==> g.Reachable(b)
    ensures Strict(g, MovedBody(body, mv))
  {
    hide CanMove, UniqueSites, StrictAt, MovedBody, NewPos;
    var body': Body := MovedBody(body, mv);
    StrictShape(g, body);
    MovedUnique(g, body, mv);
    forall b: Block, j: nat | b < |body'| && j < |body'[b]|
      ensures StrictAt(g, body', b, j)
    {
      MoveShape(g, body, mv);
      var k := ComesFromWhere(g, body, mv, b, j);
      if k < |body[b]| && NewPos(body, mv, b, k) == j && (body[b][k] !in mv.moved || b == mv.preheader) {
        StaysStrict(g, body, mv, b, k);
      } else {
        CameStrict(g, body, mv, k);
      }
    }
  }
}
