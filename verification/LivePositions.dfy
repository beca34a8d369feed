/** The positions of the liveness tables: the function entry is position 0, and what was numbered `id` spans
    2 * id - 1 (before it) to 2 * id (after it). */
module LivePositions {
  import opened Graphs
  import opened Lowered
  import opened LiveSets

  function IsPlace(f: Fun, pl: Place): bool {
    pl.b < |f.blocks| && match pl
                         case InstrAt(b, k) => k <= |f.blocks[b].body|
                         case CopyAt(b, j) => j < |f.blocks[b].copies|
  }

  function PlaceId(f: Fun, ids: Ids, pl: Place): int
    requires IsPlace(f, pl)
  {
    match pl
    case InstrAt(b, k) => if (b, k) in ids.instr then ids.instr[(b, k)] else 0
    case CopyAt(b, j) => if f.blocks[b].copies[j] in ids.copy then ids.copy[f.blocks[b].copies[j]] else 0
  }

  /** The step that a place belongs to. */
  function StepOf(f: Fun, pl: Place): (k: nat)
    requires IsPlace(f, pl)
    ensures k < f.blocks[pl.b].StepCount()
  {
    match pl
    case InstrAt(b, k) => if k < |f.blocks[b].body| then k else f.blocks[b].StepCount() - 1
    case CopyAt(b, j) => |f.blocks[b].body|
  }

  lemma PlaceOwner(f: Fun, ids: Ids, owner: map<int, Place>, pl: Place)
    requires Numbered(f, ids, owner) && IsPlace(f, pl)
    ensures var id := PlaceId(f, ids, pl); 0 < id && id in owner && owner[id] == pl
    ensures pl.InstrAt? ==> PlaceId(f, ids, pl) == StepId(f, ids, pl.b, StepOf(f, pl))
    ensures pl.CopyAt? && pl.j == 0 ==> PlaceId(f, ids, pl) == StepId(f, ids, pl.b, StepOf(f, pl))
  {
    match pl
    case InstrAt(b, k) => assert HasInstrId(ids, owner, b, k);
    case CopyAt(b, j) => assert HasCopyId(f, ids, owner, b, j);
  }

  ghost predicate Owned(f: Fun, ids: Ids, owner: map<int, Place>, id: int) {
    id in owner && IsPlace(f, owner[id]) && PlaceId(f, ids, owner[id]) == id
  }

  /** The table has entries for places only, and the copies of a block share theirs. */
  ghost predicate Tidy(f: Fun, ids: Ids, owner: map<int, Place>, t: Table) {
    && (forall id :: id in t ==> Owned(f, ids, owner, id))
    && (forall pl: Place :: IsPlace(f, pl) ==> Shares(f, ids, t, pl))
  }

  ghost predicate Shares(f: Fun, ids: Ids, t: Table, pl: Place)
    requires IsPlace(f, pl)
  {
    At(t, PlaceId(f, ids, pl)) == In(f, ids, t, pl.b, StepOf(f, pl))
  }

  lemma TidyEmpty(f: Fun, ids: Ids, owner: map<int, Place>)
    ensures Tidy(f, ids, owner, map[])
  {
  }

  /** Writing the entry of an instruction keeps a table tidy. */
  lemma TidyInstr(f: Fun, ids: Ids, owner: map<int, Place>, t: Table, b: Block, k: nat, x: set<Val>)
    requires Numbered(f, ids, owner) && b < |f.blocks| && k < f.blocks[b].StepCount() && !f.blocks[b].IsCopyStep(k)
    requires Tidy(f, ids, owner, t)
    ensures Tidy(f, ids, owner, t[StepId(f, ids, b, k) := x])
  {
    hide Numbered, StepId;
    var own := InstrAt(b, if k < |f.blocks[b].body| then k else |f.blocks[b].body|);
    PlaceOwner(f, ids, owner, own);
    SetStep(f, ids, owner, t, b, k, x);
    forall pl: Place | IsPlace(f, pl)
      ensures Shares(f, ids, t[StepId(f, ids, b, k) := x], pl)
    {
      PlaceOwner(f, ids, owner, pl);
      assert Shares(f, ids, t, pl);
    }
  }

  /** The first `n` copies of `b` have the entry `x`. */
  ghost predicate TidyUpTo(f: Fun, ids: Ids, owner: map<int, Place>, t: Table, b: Block, n: nat, x: set<Val>) {
    && (forall id :: id in t ==> Owned(f, ids, owner, id))
    && (forall pl: Place :: IsPlace(f, pl) ==> SharesUpTo(f, ids, t, pl, b, n, x))
  }

  ghost predicate SharesUpTo(f: Fun, ids: Ids, t: Table, pl: Place, b: Block, n: nat, x: set<Val>)
    requires IsPlace(f, pl)
  {
    if pl.CopyAt? && pl.b == b then pl.j < n ==> At(t, PlaceId(f, ids, pl)) == x else Shares(f, ids, t, pl)
  }

  lemma TidyCopy(f: Fun, ids: Ids, owner: map<int, Place>, t: Table, b: Block, n: nat, x: set<Val>)
    requires Numbered(f, ids, owner) && b < |f.blocks| && n < |f.blocks[b].copies|
    requires TidyUpTo(f, ids, owner, t, b, n, x)
    ensures TidyUpTo(f, ids, owner, t[PlaceId(f, ids, CopyAt(b, n)) := x], b, n + 1, x)
  {
    hide Numbered, StepId;
    var own := CopyAt(b, n);
    PlaceOwner(f, ids, owner, own);
    var t' := t[PlaceId(f, ids, own) := x];
    forall pl: Place | IsPlace(f, pl)
      ensures SharesUpTo(f, ids, t', pl, b, n + 1, x)
    {
      assert SharesUpTo(f, ids, t, pl, b, n, x);
      PlaceOwner(f, ids, owner, pl);
      StepIdOwner(f, ids, owner, pl.b, StepOf(f, pl));
    }
  }

  lemma TidyStart(f: Fun, ids: Ids, owner: map<int, Place>, t: Table, b: Block, x: set<Val>)
    requires Tidy(f, ids, owner, t)
    ensures TidyUpTo(f, ids, owner, t, b, 0, x)
  {
    forall pl: Place | IsPlace(f, pl)
      ensures SharesUpTo(f, ids, t, pl, b, 0, x)
    {
      assert Shares(f, ids, t, pl);
    }
  }

  lemma TidyDone(f: Fun, ids: Ids, owner: map<int, Place>, t: Table, b: Block, x: set<Val>)
    requires Numbered(f, ids, owner) && b < |f.blocks|
    requires TidyUpTo(f, ids, owner, t, b, |f.blocks[b].copies|, x)
    ensures Tidy(f, ids, owner, t)
  {
    hide Numbered, StepId;
    forall pl: Place | IsPlace(f, pl)
      ensures Shares(f, ids, t, pl)
    {
      assert SharesUpTo(f, ids, t, pl, b, |f.blocks[b].copies|, x);
      if pl.CopyAt? && pl.b == b {
        assert SharesUpTo(f, ids, t, CopyAt(b, 0), b, |f.blocks[b].copies|, x);
        PlaceOwner(f, ids, owner, CopyAt(b, 0));
      }
    }
  }

  // ----- intervals -----

  const UNINITIAL := -1

  datatype Interval = Interval(start: int, end: int)

  type IntervalMap = map<Val, Interval>

  /** The least interval around the positions of each value. */
  ghost predicate Hull(m: IntervalMap, touched: set<(Val, int)>) {
    && (forall v, p :: (v, p) in touched ==> v in m && m[v].start <= p <= m[v].end)
    && (forall v :: v in m ==> (v, m[v].start) in touched && (v, m[v].end) in touched)
  }

  function Widen(m: IntervalMap, v: Val, p: int): IntervalMap {
    m[v := if v in m then Interval(if p < m[v].start then p else m[v].start, if p > m[v].end then p else m[v].end)
           else Interval(p, p)]
  }

  lemma WidenHull(m: IntervalMap, touched: set<(Val, int)>, v: Val, p: int)
    requires Hull(m, touched)
    ensures Hull(Widen(m, v, p), touched + {(v, p)})
  {
  }

  function InPos(id: int): int {
    if id == 0 then 0 else 2 * id - 1
  }

  function OutPos(id: int): int {
    if id == 0 then 0 else 2 * id
  }

  ghost function Touched(t: Table, keys: set<int>, pos: int -> int): set<(Val, int)>
    requires keys <= t.Keys
  {
    set id, v | id in keys && v in t[id] :: (v, pos(id))
  }

  /** `v` is live at a position: an argument at the entry, or live before or after what is numbered there. */
  ghost predicate LiveAtPos(f: Fun, ids: Ids, v: Val, p: int)
    requires f.Valid()
  {
    || (p == 0 && v in f.args)
    || exists pl: Place :: IsPlace(f, pl) && LiveAround(f, ids, v, p, pl)
  }

  ghost predicate LiveAround(f: Fun, ids: Ids, v: Val, p: int, pl: Place)
    requires f.Valid() && IsPlace(f, pl)
  {
    || (p == 2 * PlaceId(f, ids, pl) - 1 && f.Live(v, pl.b, StepOf(f, pl)))
    || (p == 2 * PlaceId(f, ids, pl) && f.Live(v, pl.b, StepOf(f, pl) + 1))
  }

  /** The interval of each value is the hull of the positions where it is live. */
  ghost predicate ExactIntervals(f: Fun, ids: Ids, m: IntervalMap)
    requires f.Valid()
  {
    && (forall v, p :: LiveAtPos(f, ids, v, p) ==> v in m && m[v].start <= p <= m[v].end)
    && (forall v :: v in m ==> LiveAtPos(f, ids, v, m[v].start) && LiveAtPos(f, ids, v, m[v].end))
  }

  /** An entry of a finished table, read as liveness. */
  lemma EntryIsLive(f: Fun, ids: Ids, owner: map<int, Place>, ins: Table, outs: Table, pl: Place, v: Val)
    requires f.Valid() && Exact(f, ids, ins, outs) && IsPlace(f, pl)
    requires Tidy(f, ids, owner, ins) && Tidy(f, ids, owner, outs)
    ensures v in At(ins, PlaceId(f, ids, pl)) <==> f.Live(v, pl.b, StepOf(f, pl))
    ensures v in At(outs, PlaceId(f, ids, pl)) <==> f.Live(v, pl.b, StepOf(f, pl) + 1)
  {
    assert Shares(f, ids, ins, pl) && Shares(f, ids, outs, pl);
    assert At(outs, StepId(f, ids, pl.b, StepOf(f, pl))) == In(f, ids, outs, pl.b, StepOf(f, pl));
  }

  ghost predicate TouchedAt(ins: Table, outs: Table, v: Val, p: int) {
    || (exists id: int :: id in ins && v in ins[id] && p == InPos(id))
    || (exists id: int :: id in outs && v in outs[id] && p == OutPos(id))
  }

  lemma TouchedEither(ins: Table, outs: Table, v: Val, p: int)
    ensures (v, p) in Touched(ins, ins.Keys, InPos) + Touched(outs, outs.Keys, OutPos) <==> TouchedAt(ins, outs, v, p)
  {
  }

  lemma EntryHasPlace(f: Fun, ids: Ids, owner: map<int, Place>, t: Table, id: int)
    requires Tidy(f, ids, owner, t) && id in t
    ensures Owned(f, ids, owner, id)
  {
  }

  lemma TouchedIsLive(f: Fun, ids: Ids, owner: map<int, Place>, ins: Table, outs: Table, v: Val, p: int)
    requires f.Valid() && Exact(f, ids, ins, outs) && Tidy(f, ids, owner, ins) && Tidy(f, ids, owner, outs)
    requires TouchedAt(ins[0 := f.args], outs[0 := {}], v, p)
    ensures LiveAtPos(f, ids, v, p)
  {
    hide Exact, PlaceId, StepOf, Tidy;
    var ins', outs' := ins[0 := f.args], outs[0 := {}];
    if exists id: int :: id in ins' && v in ins'[id] && p == InPos(id) {
      var id: int :| id in ins' && v in ins'[id] && p == InPos(id);
      if id != 0 {
        EntryHasPlace(f, ids, owner, ins, id);
        EntryIsLive(f, ids, owner, ins, outs, owner[id], v);
        assert LiveAround(f, ids, v, p, owner[id]);
      }
    } else {
      var id: int :| id in outs' && v in outs'[id] && p == OutPos(id);
      EntryHasPlace(f, ids, owner, outs, id);
      EntryIsLive(f, ids, owner, ins, outs, owner[id], v);
      assert LiveAround(f, ids, v, p, owner[id]);
    }
  }

  lemma LiveIsTouched(f: Fun, ids: Ids, owner: map<int, Place>, ins: Table, outs: Table, v: Val, p: int)
    requires f.Valid() && Numbered(f, ids, owner) && Exact(f, ids, ins, outs)
    requires Tidy(f, ids, owner, ins) && Tidy(f, ids, owner, outs) && LiveAtPos(f, ids, v, p)
    ensures TouchedAt(ins[0 := f.args], outs[0 := {}], v, p)
  {
    hide Numbered, Exact, PlaceId, StepOf, Tidy;
    var ins', outs' := ins[0 := f.args], outs[0 := {}];
    if p == 0 && v in f.args {
      assert 0 in ins' && v in ins'[0] && InPos(0) == p;
    } else {
      var pl: Place :| IsPlace(f, pl) && LiveAround(f, ids, v, p, pl);
      PlaceOwner(f, ids, owner, pl);
      EntryIsLive(f, ids, owner, ins, outs, pl, v);
      var id := PlaceId(f, ids, pl);
      if p == 2 * id - 1 && f.Live(v, pl.b, StepOf(f, pl)) {
        assert id in ins' && v in ins'[id] && InPos(id) == p;
      } else {
        assert id in outs' && v in outs'[id] && OutPos(id) == p;
      }
    }
  }

  lemma HullIsExact(f: Fun, ids: Ids, owner: map<int, Place>, ins: Table, outs: Table, m: IntervalMap)
    requires f.Valid() && Numbered(f, ids, owner) && Exact(f, ids, ins, outs)
    requires Tidy(f, ids, owner, ins) && Tidy(f, ids, owner, outs)
    requires var ins', outs' := ins[0 := f.args], outs[0 := {}];
             Hull(m, Touched(ins', ins'.Keys, InPos) + Touched(outs', outs'.Keys, OutPos))
    ensures ExactIntervals(f, ids, m)
  {
    hide Numbered, Exact, Tidy, LiveAtPos, Touched, TouchedAt;
    var ins', outs' := ins[0 := f.args], outs[0 := {}];
    forall v, p | LiveAtPos(f, ids, v, p)
      ensures v in m && m[v].start <= p <= m[v].end
    {
      LiveIsTouched(f, ids, owner, ins, outs, v, p);
      TouchedEither(ins', outs', v, p);
    }
    forall v | v in m
      ensures LiveAtPos(f, ids, v, m[v].start) && LiveAtPos(f, ids, v, m[v].end)
    {
      TouchedEither(ins', outs', v, m[v].start);
      TouchedIsLive(f, ids, owner, ins, outs, v, m[v].start);
      TouchedEither(ins', outs', v, m[v].end);
      TouchedIsLive(f, ids, owner, ins, outs, v, m[v].end);
    }
  }
}
