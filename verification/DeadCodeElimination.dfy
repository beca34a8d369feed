/** Mark and sweep: only what critical instructions depend on stays, and a run shows the same. */
module DeadCodeElimination {
  import opened Graphs
  import opened Basics
  import opened SsaRun

  ghost predicate Occurs(body: Body, i: Ins) {
    exists b: Block :: b < |body| && i in body[b]
  }

  /** No two instructions share an id. */
  ghost predicate UniqueIds(body: Body) {
    forall i, j {:trigger Occurs(body, i), Occurs(body, j)} :: Occurs(body, i) && Occurs(body, j) && i.id == j.id ==> i == j
  }

  lemma UniqueInstructions(body: Body)
    requires UniqueSites(body)
    ensures UniqueIds(body)
  {
    forall i, j | Occurs(body, i) && Occurs(body, j) && i.id == j.id
      ensures i == j
    {
      var b: Block :| b < |body| && i in body[b];
      var c: Block :| c < |body| && j in body[c];
      var k: nat :| k < |body[b]| && body[b][k] == i;
      var l: nat :| l < |body[c]| && body[c][l] == j;
      assert DefinedAt(body, b, k, i.id) && DefinedAt(body, c, l, i.id);
    }
  }

  /** `i` has `j` as an operand. */
  predicate DependsOn(i: Ins, j: Ins) {
    Ref(j.id) in i.Operands()
  }

  /** Has the critical instructions, and with each instruction those it depends on. */
  ghost predicate ClosedUnder(body: Body, m: set<nat>) {
    && (forall i :: Occurs(body, i) && i.IsCritical() ==> i.id in m)
    && (forall i, j {:trigger DependsOn(i, j)} :: Occurs(body, i) && i.id in m && Occurs(body, j) && DependsOn(i, j) ==> j.id in m)
  }

  /** Exactly the closure of the critical instructions. */
  ghost predicate LeastClosed(body: Body, m: set<nat>) {
    && ClosedUnder(body, m)
    && (forall x :: x in m ==> exists i :: Occurs(body, i) && i.id == x)
    && (forall s: set<nat> :: ClosedUnder(body, s) ==> m <= s)
  }

  function Kept(code: seq<Ins>, m: set<nat>): seq<Ins> {
    if code == [] then []
    else Kept(code[..|code| - 1], m) + if code[|code| - 1].id in m then [code[|code| - 1]] else []
  }

  lemma {:induction false} KeptMember(code: seq<Ins>, m: set<nat>, i: Ins)
    ensures i in Kept(code, m) <==> i in code && i.id in m
    decreases |code|
  {
    if code != [] {
      var front, last := code[..|code| - 1], code[|code| - 1];
      KeptMember(front, m, i);
      assert code == front + [last];
    }
  }

  function Swept(body: Body, m: set<nat>): (r: Body)
    ensures |r| == |body|
  {
    seq(|body|, b requires 0 <= b < |body| => Kept(body[b], m))
  }

  lemma SweptOccurs(body: Body, m: set<nat>, i: Ins)
    ensures Occurs(Swept(body, m), i) <==> Occurs(body, i) && i.id in m
  {
    if Occurs(body, i) && i.id in m {
      var b: Block :| b < |body| && i in body[b];
      KeptMember(body[b], m, i);
      assert i in Swept(body, m)[b];
    }
    if Occurs(Swept(body, m), i) {
      var b: Block :| b < |body| && i in Swept(body, m)[b];
      KeptMember(body[b], m, i);
      assert i in body[b];
    }
  }

  /** A second round keeps everything: the closure in the swept body is all of it. */
  lemma SecondRound(body: Body, m: set<nat>)
    requires LeastClosed(body, m)
    ensures LeastClosed(Swept(body, m), m)
  {
    hide Occurs, Ins.Operands, Ins.IsCritical, DependsOn;
    var body' := Swept(body, m);
    SweptAll(body, m);
    forall x | x in m
      ensures exists i :: Occurs(body', i) && i.id == x
    {
      var i :| Occurs(body, i) && i.id == x;
      assert Occurs(body', i);
    }
    forall s: set<nat> | ClosedUnder(body', s)
      ensures m <= s
    {
      assert ClosedUnder(body, s * m);
    }
  }

  lemma SweptAll(body: Body, m: set<nat>)
    ensures forall i {:trigger Occurs(Swept(body, m), i)} {:trigger Occurs(body, i)} ::
              Occurs(Swept(body, m), i) <==> Occurs(body, i) && i.id in m
  {
    forall i {:trigger Occurs(Swept(body, m), i)} {:trigger Occurs(body, i)}
      ensures Occurs(Swept(body, m), i) <==> Occurs(body, i) && i.id in m
    {
      SweptOccurs(body, m, i);
    }
  }

  lemma NothingToSweep(body: Body, m: set<nat>)
    requires forall i :: Occurs(body, i) ==> i.id in m
    ensures Swept(body, m) == body
  {
    forall b: Block | b < |body|
      ensures Kept(body[b], m) == body[b]
    {
      forall i | i in body[b]
        ensures i.id in m
      {
        assert Occurs(body, i);
      }
      AllKept(body[b], m);
    }
  }

  lemma {:induction false} AllKept(code: seq<Ins>, m: set<nat>)
    requires forall i :: i in code ==> i.id in m
    ensures Kept(code, m) == code
    decreases |code|
  {
    if code != [] {
      AllKept(code[..|code| - 1], m);
      assert code == code[..|code| - 1] + [code[|code| - 1]];
    }
  }

  // ----- running -----

  /** The runs agree on everything that is not swept: what is kept, and what is no instruction. */
  ghost predicate Alike(body: Body, m: set<nat>, s: State, s': State) {
    s.trace == s'.trace &&
    forall x :: x in m || (forall i :: Occurs(body, i) ==> i.id != x) ==> Read(s, Ref(x)) == Read(s', Ref(x))
  }

  lemma OperandsAlike(body: Body, m: set<nat>, s: State, s': State, i: Ins, o: Operand)
    requires ClosedUnder(body, m) && Alike(body, m, s, s') && Occurs(body, i) && i.id in m && o in i.Operands()
    ensures Read(s, o) == Read(s', o)
  {
    if o.Ref? {
      if j :| Occurs(body, j) && j.id == o.id {
        assert DependsOn(i, j);
      }
    }
  }

  lemma {:induction false} IncomingIn(i: Ins, p: Block, incoming: seq<(Operand, Block)>)
    requires i.Phi? && forall x :: x in incoming ==> x.0 in i.Operands()
    ensures FromPred(incoming, p) in i.Operands() || FromPred(incoming, p) == Other(0)
    decreases |incoming|
  {
    if incoming != [] && incoming[0].1 != p {
      IncomingIn(i, p, incoming[1..]);
    }
  }

  lemma ExecAlike(f: Machine, body: Body, m: set<nat>, i: Ins, s: State, s': State)
    requires ClosedUnder(body, m) && UniqueIds(body) && Occurs(body, i) && Alike(body, m, s, s')
    ensures Alike(body, m, Exec(f, i, s), if i.id in m then Exec(f, i, s') else s')
  {
    if i.Ins? {
      if i.id in m {
        forall k | 0 <= k < |i.ops|
          ensures Read(s, i.ops[k]) == Read(s', i.ops[k])
        {
          OperandsAlike(body, m, s, s', i, i.ops[k]);
        }
        assert ReadAll(s, i.ops) == ReadAll(s', i.ops);
      } else {
        assert !i.IsCritical();
      }
    }
  }

  lemma KeptLast(code: seq<Ins>, m: set<nat>)
    requires code != []
    ensures var front, last := code[..|code| - 1], code[|code| - 1];
            Kept(code, m) == if last.id in m then Kept(front, m) + [last] else Kept(front, m)
  {
  }

  lemma ExecSnoc(f: Machine, code: seq<Ins>, i: Ins, s: State)
    ensures ExecAll(f, code + [i], s) == Exec(f, i, ExecAll(f, code, s))
  {
    assert (code + [i])[..|code|] == code;
  }

  lemma PhiSnoc(code: seq<Ins>, i: Ins, p: Block, s: State)
    ensures PhiValues(code + [i], p, s) ==
            if i.Phi? then PhiValues(code, p, s)[i.id := Read(s, FromPred(i.incoming, p))] else PhiValues(code, p, s)
  {
    assert (code + [i])[..|code|] == code;
  }

  lemma {:induction false} CodeAlike(f: Machine, body: Body, m: set<nat>, code: seq<Ins>, s: State, s': State)
    requires ClosedUnder(body, m) && UniqueIds(body) && Alike(body, m, s, s')
    requires forall i :: i in code ==> Occurs(body, i)
    ensures Alike(body, m, ExecAll(f, code, s), ExecAll(f, Kept(code, m), s'))
    decreases |code|
  {
    hide ClosedUnder, UniqueIds, Alike, Exec, Occurs;
    if code != [] {
      var front, last := code[..|code| - 1], code[|code| - 1];
      CodeAlike(f, body, m, front, s, s');
      ExecAlike(f, body, m, last, ExecAll(f, front, s), ExecAll(f, Kept(front, m), s'));
      KeptLast(code, m);
      ExecSnoc(f, Kept(front, m), last, s');
    }
  }

  lemma NoPhis(m: set<nat>, p: Block, s: State, s': State)
    ensures PhiValues([], p, s) == map[] && PhiValues(Kept([], m), p, s') == map[]
  {
  }

  /** The phis of a block, and of the block as swept. */
  lemma {:induction false} PhisAlike(body: Body, m: set<nat>, code: seq<Ins>, p: Block, s: State, s': State, x: nat)
    requires ClosedUnder(body, m) && UniqueIds(body) && Alike(body, m, s, s')
    requires forall i :: i in code ==> Occurs(body, i)
    requires x in m || (forall i :: Occurs(body, i) ==> i.id != x)
    ensures x in PhiValues(code, p, s) <==> x in PhiValues(Kept(code, m), p, s')
    ensures x in PhiValues(code, p, s) ==> PhiValues(code, p, s)[x] == PhiValues(Kept(code, m), p, s')[x]
    decreases |code|
  {
    hide ClosedUnder, UniqueIds, Alike, Occurs, Kept, PhiValues, Read, FromPred, Ins.Operands, Ins.IsCritical;
    if code == [] {
      NoPhis(m, p, s, s');
    } else {
      var front, last := code[..|code| - 1], code[|code| - 1];
      PhisAlike(body, m, front, p, s, s', x);
      KeptLast(code, m);
      PhiSnoc(front, last, p, s);
      PhiSnoc(Kept(front, m), last, p, s');
      assert code == front + [last] && Occurs(body, last);
      if last.id in m && last.Phi? {
        PhiAlike(body, m, last, p, s, s');
      }
    }
  }

  lemma PhiAlike(body: Body, m: set<nat>, i: Ins, p: Block, s: State, s': State)
    requires ClosedUnder(body, m) && Alike(body, m, s, s') && Occurs(body, i) && i.id in m && i.Phi?
    ensures Read(s, FromPred(i.incoming, p)) == Read(s', FromPred(i.incoming, p))
  {
    forall x | x in i.incoming
      ensures x.0 in i.Operands()
    {
      var k :| 0 <= k < |i.incoming| && i.incoming[k] == x;
      assert i.Operands()[k] == x.0;
    }
    IncomingIn(i, p, i.incoming);
    if FromPred(i.incoming, p) != Other(0) {
      OperandsAlike(body, m, s, s', i, FromPred(i.incoming, p));
    }
  }

  lemma EdgeAlike(body: Body, m: set<nat>, b: Block, p: Block, s: State, s': State)
    requires ClosedUnder(body, m) && UniqueIds(body) && Alike(body, m, s, s') && b < |body|
    ensures Alike(body, m, s.(env := s.env + PhiValues(body[b], p, s)), s'.(env := s'.env + PhiValues(Kept(body[b], m), p, s')))
  {
    hide ClosedUnder, UniqueIds;
    forall i | i in body[b]
      ensures Occurs(body, i)
    {
    }
    var t, t' := s.(env := s.env + PhiValues(body[b], p, s)), s'.(env := s'.env + PhiValues(Kept(body[b], m), p, s'));
    forall x | x in m || (forall i :: Occurs(body, i) ==> i.id != x)
      ensures Read(t, Ref(x)) == Read(t', Ref(x))
    {
      PhisAlike(body, m, body[b], p, s, s', x);
      assert Read(s, Ref(x)) == Read(s', Ref(x));
    }
  }

  /** On every path the swept body does the same stores, impure calls, branches and returns, with the same operands. */
  lemma {:induction false} SweepKeepsTrace(f: Machine, body: Body, m: set<nat>, start: map<nat, int>, path: seq<Block>)
    requires ClosedUnder(body, m) && UniqueIds(body)
    requires PathIn(body, path)
    ensures PathIn(Swept(body, m), path)
    ensures Alike(body, m, Run(f, body, start, path), Run(f, Swept(body, m), start, path))
    ensures Run(f, body, start, path).trace == Run(f, Swept(body, m), start, path).trace
    decreases |path|
  {
    hide ClosedUnder, UniqueIds, Alike;
    var b := Last(path);
    forall i | i in body[b]
      ensures Occurs(body, i)
    {
    }
    if |path| == 1 {
      StartAlike(body, m, start);
    } else {
      var p := path[|path| - 2];
      SweepKeepsTrace(f, body, m, start, path[..|path| - 1]);
      EdgeAlike(body, m, b, p, Run(f, body, start, path[..|path| - 1]),
                Run(f, Swept(body, m), start, path[..|path| - 1]));
    }
    CodeAlike(f, body, m, body[b], Enter(f, body, start, path), Enter(f, Swept(body, m), start, path));
    SameTrace(body, m, Run(f, body, start, path), Run(f, Swept(body, m), start, path));
  }

  lemma StartAlike(body: Body, m: set<nat>, start: map<nat, int>)
    ensures Alike(body, m, State(start, []), State(start, []))
  {
  }

  lemma SameTrace(body: Body, m: set<nat>, s: State, s': State)
    requires Alike(body, m, s, s')
    ensures s.trace == s'.trace
  {
  }

  // ----- marking -----

  ghost function Ids(body: Body): set<nat> {
    set b, k | 0 <= b < |body| && 0 <= k < |body[b]| :: body[b][k].id
  }

  lemma IdIn(body: Body, i: Ins)
    requires Occurs(body, i)
    ensures i.id in Ids(body)
  {
    var b: Block :| b < |body| && i in body[b];
    var k :| 0 <= k < |body[b]| && body[b][k] == i;
  }

  /** The critical instructions before instruction `k` of block `b` are marked and listed. */
  ghost predicate Marking(body: Body, b: Block, k: nat, marked: set<nat>, workList: seq<Ins>) {
    && b <= |body| && (b < |body| ==> k <= |body[b]|)
    && (forall i :: i in workList ==> Occurs(body, i) && i.IsCritical() && i.id in marked)
    && (forall x :: x in marked ==> exists i :: i in workList && i.id == x)
    && (forall c: Block, j: nat :: c < b && j < |body[c]| && body[c][j].IsCritical() ==> body[c][j].id in marked)
    && (forall j: nat :: b < |body| && j < k && body[b][j].IsCritical() ==> body[b][j].id in marked)
  }

  lemma StartMarking(body: Body)
    ensures Marking(body, 0, 0, {}, [])
  {
  }

  lemma MarkCritical(body: Body, b: Block, k: nat, marked: set<nat>, workList: seq<Ins>)
    requires Marking(body, b, k, marked, workList) && b < |body| && k < |body[b]|
    ensures var i := body[b][k];
            if i.IsCritical() then Marking(body, b, k + 1, marked + {i.id}, workList + [i])
            else Marking(body, b, k + 1, marked, workList)
  {
    var i := body[b][k];
    assert Occurs(body, i);
    if i.IsCritical() {
      assert i in workList + [i];
      forall x | x in marked + {i.id}
        ensures exists j :: j in workList + [i] && j.id == x
      {
        if x in marked {
          var j :| j in workList && j.id == x;
          assert j in workList + [i];
        }
      }
    }
  }

  lemma NextBlock(body: Body, b: Block, marked: set<nat>, workList: seq<Ins>)
    requires b < |body| && Marking(body, b, |body[b]|, marked, workList)
    ensures Marking(body, b + 1, 0, marked, workList)
  {
  }

  /** Everything marked is needed; what a marked instruction depends on is marked, unless the instruction is listed, or
      is the one at hand and the operand is not among its first `k`. */
  ghost predicate SpreadingFrom(body: Body, marked: set<nat>, workList: seq<Ins>, now: Ins, k: nat) {
    && (forall i :: Occurs(body, i) && i.IsCritical() ==> i.id in marked)
    && (forall s: set<nat> {:trigger ClosedUnder(body, s)} :: ClosedUnder(body, s) ==> marked <= s)
    && (forall x :: x in marked ==> exists i :: Occurs(body, i) && i.id == x)
    && (forall i :: i in workList ==> Occurs(body, i) && i.id in marked)
    && Occurs(body, now) && now.id in marked && k <= |now.Operands()|
    && (forall i, j {:trigger DependsOn(i, j)} :: Occurs(body, i) && i.id in marked && Occurs(body, j) && DependsOn(i, j) ==>
          j.id in marked || i in workList || (i == now && Ref(j.id) !in now.Operands()[..k]))
  }

  ghost predicate Spreading(body: Body, marked: set<nat>, workList: seq<Ins>) {
    && (forall i :: Occurs(body, i) && i.IsCritical() ==> i.id in marked)
    && (forall s: set<nat> {:trigger ClosedUnder(body, s)} :: ClosedUnder(body, s) ==> marked <= s)
    && (forall x :: x in marked ==> exists i :: Occurs(body, i) && i.id == x)
    && (forall i :: i in workList ==> Occurs(body, i) && i.id in marked)
    && (forall i, j {:trigger DependsOn(i, j)} :: Occurs(body, i) && i.id in marked && Occurs(body, j) && DependsOn(i, j) ==>
          j.id in marked || i in workList)
  }

  lemma AllCritical(body: Body, marked: set<nat>, workList: seq<Ins>)
    requires UniqueIds(body) && Marking(body, |body|, 0, marked, workList)
    ensures Spreading(body, marked, workList)
  {
    forall i | Occurs(body, i) && i.IsCritical()
      ensures i.id in marked
    {
      var b: Block :| b < |body| && i in body[b];
      var k: nat :| k < |body[b]| && body[b][k] == i;
    }
    forall x | x in marked
      ensures exists i :: Occurs(body, i) && i.IsCritical() && i.id == x
    {
      var i :| i in workList && i.id == x;
    }
    forall i, j {:trigger DependsOn(i, j)} | Occurs(body, i) && i.id in marked && Occurs(body, j) && DependsOn(i, j)
      ensures i in workList
    {
      var i' :| i' in workList && i'.id == i.id;
      assert Occurs(body, i');
    }
  }

  lemma TakeOne(body: Body, marked: set<nat>, workList: seq<Ins>)
    requires Spreading(body, marked, workList) && workList != []
    ensures SpreadingFrom(body, marked, workList[1..], workList[0], 0)
  {
    hide Occurs, ClosedUnder, DependsOn, Ins.IsCritical;
    assert workList == [workList[0]] + workList[1..];
    assert workList[0] in workList;
  }

  lemma OneOperand(body: Body, marked: set<nat>, workList: seq<Ins>, now: Ins, k: nat, def: Option<Ins>)
    requires UniqueIds(body) && SpreadingFrom(body, marked, workList, now, k) && k < |now.Operands()|
    requires def.Some? ==> Occurs(body, def.value) && now.Operands()[k] == Ref(def.value.id)
    requires def.None? ==> forall i :: Occurs(body, i) ==> now.Operands()[k] != Ref(i.id)
    ensures if def.None? || def.value.id in marked then SpreadingFrom(body, marked, workList, now, k + 1)
            else SpreadingFrom(body, marked + {def.value.id}, workList + [def.value], now, k + 1)
    ensures marked <= Ids(body) && (def.Some? ==> def.value.id in Ids(body))
  {
    hide Occurs, ClosedUnder, Ins.IsCritical, Ids, Ins.Operands;
    var ops := now.Operands();
    assert ops[..k + 1] == ops[..k] + [ops[k]];
    forall x | x in marked
      ensures x in Ids(body)
    {
      var i :| Occurs(body, i) && i.id == x;
      IdIn(body, i);
    }
    if def.Some? {
      IdIn(body, def.value);
      assert DependsOn(now, def.value);
      NeededToo(body, marked, workList, now, k, def.value);
      if def.value.id !in marked {
        OneMarked(body, marked, workList, now, k, def.value);
      }
    }
  }

  lemma NeededToo(body: Body, marked: set<nat>, workList: seq<Ins>, now: Ins, k: nat, def: Ins)
    requires SpreadingFrom(body, marked, workList, now, k) && Occurs(body, def) && DependsOn(now, def)
    ensures forall s: set<nat> {:trigger ClosedUnder(body, s)} :: ClosedUnder(body, s) ==> marked + {def.id} <= s
  {
    hide Occurs, Ins.IsCritical;
  }

  lemma OneMarked(body: Body, marked: set<nat>, workList: seq<Ins>, now: Ins, k: nat, def: Ins)
    requires UniqueIds(body) && SpreadingFrom(body, marked, workList, now, k) && k < |now.Operands()|
    requires Occurs(body, def) && now.Operands()[k] == Ref(def.id) && def.id !in marked
    requires forall s: set<nat> {:trigger ClosedUnder(body, s)} :: ClosedUnder(body, s) ==> marked + {def.id} <= s
    ensures SpreadingFrom(body, marked + {def.id}, workList + [def], now, k + 1)
  {
    hide Occurs, ClosedUnder, Ins.IsCritical, Ins.Operands;
    var ops := now.Operands();
    assert ops[..k + 1] == ops[..k] + [ops[k]];
    var marked', workList' := marked + {def.id}, workList + [def];
    forall i, j {:trigger DependsOn(i, j)} | Occurs(body, i) && i.id in marked' && Occurs(body, j) && DependsOn(i, j)
      ensures j.id in marked' || i in workList' || (i == now && Ref(j.id) !in now.Operands()[..k + 1])
    {
      if i.id == def.id {
        assert i == def;
        assert i in workList';
      }
    }
    forall x | x in marked'
      ensures exists i :: Occurs(body, i) && i.id == x
    {
      if x == def.id {
        assert Occurs(body, def);
      }
    }
  }

  lemma AllOperands(body: Body, marked: set<nat>, workList: seq<Ins>, now: Ins)
    requires SpreadingFrom(body, marked, workList, now, |now.Operands()|)
    ensures Spreading(body, marked, workList)
  {
    hide Occurs, ClosedUnder, Ins.IsCritical, Ins.Operands;
    assert now.Operands()[..|now.Operands()|] == now.Operands();
  }

  lemma Finished(body: Body, marked: set<nat>)
    requires Spreading(body, marked, [])
    ensures LeastClosed(body, marked)
  {
    hide Occurs, Ins.IsCritical, Ins.Operands, DependsOn;
  }

  lemma LeastUnique(body: Body, m: set<nat>, m': set<nat>)
    requires LeastClosed(body, m) && LeastClosed(body, m')
    ensures m == m'
  {
    hide ClosedUnder, Occurs;
  }

  lemma SweptUnique(body: Body, m: set<nat>)
    requires UniqueIds(body)
    ensures UniqueIds(Swept(body, m))
  {
    hide Occurs, Swept;
    SweptAll(body, m);
  }

  lemma AllMarked(body: Body, m: set<nat>)
    requires LeastClosed(Swept(body, m), m)
    ensures Swept(Swept(body, m), m) == Swept(body, m)
  {
    hide LeastClosed, Occurs;
    SweptAll(body, m);
    NothingToSweep(Swept(body, m), m);
  }

  lemma {:induction false} KeptShorter(code: seq<Ins>, m: set<nat>)
    ensures |Kept(code, m)| <= |code| && (|Kept(code, m)| == |code| ==> Kept(code, m) == code)
    decreases |code|
  {
    if code != [] {
      KeptShorter(code[..|code| - 1], m);
    }
  }

  // ----- the pass -----

  class DeadCode {
    var body: Body
    var marked: set<nat>
    var workList: seq<Ins>
    var insCount: nat

    constructor (body: Body)
      ensures this.body == body && insCount == 0
    {
      this.body := body;
      marked, workList, insCount := {}, [], 0;
    }

    /** Repeats marking and sweeping until nothing is deleted; the second round already deletes nothing. */
    method Run() returns (ghost needed: set<nat>)
      requires UniqueIds(body)
      modifies this
      ensures LeastClosed(old(body), needed) && body == Swept(old(body), needed)
    {
      hide UniqueIds, LeastClosed, Swept;
      needed := {};
      ghost var before := body;
      ghost var rounds := 0;
      var changed := true;
      while changed
        invariant UniqueIds(body) && rounds <= 2
        invariant if rounds == 0 then body == before && changed else LeastClosed(before, needed) && body == Swept(before, needed)
        invariant rounds == 2 ==> !changed
        decreases 2 - rounds
      {
        ghost var now := body;
        Mark();
        changed := Sweep();
        SweptUnique(now, marked);
        if rounds == 0 {
          needed := marked;
          rounds := 1;
        } else {
          SecondRound(before, needed);
          LeastUnique(now, needed, marked);
          AllMarked(before, needed);
          rounds := 2;
        }
      }
    }

    /** Marks what the critical instructions depend on, directly or through others. */
    method Mark()
      requires UniqueIds(body)
      modifies this`marked, this`workList
      ensures LeastClosed(body, marked)
    {
      hide UniqueIds, Marking, Spreading, LeastClosed;
      marked, workList := {}, [];
      StartMarking(body);
      for b := 0 to |body|
        invariant Marking(body, b, 0, marked, workList) && body == old(body)
      {
        for k := 0 to |body[b]|
          invariant Marking(body, b, k, marked, workList) && body == old(body)
        {
          var ins := body[b][k];
          MarkCritical(body, b, k, marked, workList);
          if ins.IsCritical() {
            marked := marked + {ins.id};
            workList := workList + [ins];
          }
        }
        NextBlock(body, b, marked, workList);
      }
      AllCritical(body, marked, workList);
      while workList != []
        invariant Spreading(body, marked, workList) && body == old(body)
        decreases Ids(body) - marked, |workList|
      {
        MarkOperands();
      }
      Finished(body, marked);
    }

    /** Marks the operands of the next instruction. */
    method MarkOperands()
      requires UniqueIds(body) && Spreading(body, marked, workList) && workList != []
      modifies this`marked, this`workList
      ensures Spreading(body, marked, workList)
      ensures old(marked) <= marked && (marked == old(marked) ==> |workList| < |old(workList)|)
      ensures marked == old(marked) || Ids(body) - marked < Ids(body) - old(marked)
    {
      hide UniqueIds, Occurs, SpreadingFrom, Spreading, Ids;
      var now := workList[0];
      TakeOne(body, marked, workList);
      workList := workList[1..];
      ghost var before, size := marked, |workList|;
      var ops := now.Operands();
      for k := 0 to |ops|
        invariant SpreadingFrom(body, marked, workList, now, k) && body == old(body)
        invariant before <= marked && (marked == before ==> |workList| == size)
        invariant marked == before || Ids(body) - marked < Ids(body) - before
      {
        var def := FindDef(ops[k]);
        OneOperand(body, marked, workList, now, k, def);
        if def.None? || def.value.id in marked {
          continue;
        }
        assert def.value.id in Ids(body) - marked;
        marked := marked + {def.value.id};
        workList := workList + [def.value];
      }
      AllOperands(body, marked, workList, now);
    }

    /** The instruction that an operand refers to, if it is one. */
    method FindDef(o: Operand) returns (def: Option<Ins>)
      ensures def.Some? ==> Occurs(body, def.value) && o == Ref(def.value.id)
      ensures def.None? ==> forall i :: Occurs(body, i) ==> o != Ref(i.id)
    {
      for b := 0 to |body|
        invariant forall c, i :: 0 <= c < b && i in body[c] ==> o != Ref(i.id)
      {
        for k := 0 to |body[b]|
          invariant forall i :: i in body[b][..k] ==> o != Ref(i.id)
        {
          assert body[b][..k + 1] == body[b][..k] + [body[b][k]];
          if o == Ref(body[b][k].id) {
            assert Occurs(body, body[b][k]);
            return Some(body[b][k]);
          }
        }
        assert body[b][..|body[b]|] == body[b];
      }
      return None;
    }

    /** Deletes what is not marked, and says whether that was anything. */
    method Sweep() returns (changed: bool)
      modifies this`body, this`insCount
      ensures body == Swept(old(body), marked) && (changed <==> body != old(body))
    {
      hide Kept;
      changed := false;
      ghost var before := body;
      for b := 0 to |body|
        invariant |body| == |before| && marked == old(marked)
        invariant forall c :: 0 <= c < |before| ==> body[c] == if c < b then Kept(before[c], marked) else before[c]
        invariant changed <==> exists c :: 0 <= c < b && Kept(before[c], marked) != before[c]
      {
        var kept := SweepBlock(body[b]);
        KeptShorter(body[b], marked);
        insCount := insCount + (|body[b]| - |kept|);
        changed := changed || |kept| < |body[b]|;
        body := body[b := kept];
      }
      SweptIs(before, body, marked);
    }

    method SweepBlock(code: seq<Ins>) returns (kept: seq<Ins>)
      ensures kept == Kept(code, marked)
    {
      kept := [];
      for k := 0 to |code|
        invariant kept == Kept(code[..k], marked)
      {
        assert code[..k + 1][..k] == code[..k];
        if code[k].id in marked {
          kept := kept + [code[k]];
        }
      }
      assert code[..|code|] == code;
    }
  }

  lemma SweptIs(body: Body, body': Body, m: set<nat>)
    requires |body'| == |body| && forall c :: 0 <= c < |body| ==> body'[c] == Kept(body[c], m)
    ensures body' == Swept(body, m)
    ensures body' != body <==> exists c :: 0 <= c < |body| && Kept(body[c], m) != body[c]
  {
    if forall c :: 0 <= c < |body| ==> Kept(body[c], m) == body[c] {
      assert body' == body;
    }
  }

  /** Instruction by instruction, each reads the result of the next, beginning with one that has an effect. */
  ghost predicate ReadingChain(body: Body, chain: seq<Ins>) {
    && chain != [] && (forall k :: 0 <= k < |chain| ==> Occurs(body, chain[k]))
    && chain[0].Ins? && chain[0].critical
    && forall k :: 0 <= k < |chain| - 1 ==> Reads(chain[k], chain[k + 1].id)
  }

  predicate Reads(i: Ins, x: nat) {
    match i
    case Ins(_, ops, _) => Ref(x) in ops
    case Phi(_, incoming) => exists j :: 0 <= j < |incoming| && incoming[j].0 == Ref(x)
  }

  ghost predicate NeededFor(body: Body, x: nat) {
    exists chain: seq<Ins> :: ReadingChain(body, chain) && chain[|chain| - 1].id == x
  }

  lemma ReadsIff(i: Ins, j: Ins)
    ensures Reads(i, j.id) <==> DependsOn(i, j)
  {
    if i.Phi? {
      if k :| 0 <= k < |i.incoming| && i.incoming[k].0 == Ref(j.id) {
        assert i.Operands()[k] == Ref(j.id);
      }
    }
  }

  lemma {:induction false} ChainNeeded(body: Body, m: set<nat>, chain: seq<Ins>)
    requires ClosedUnder(body, m) && ReadingChain(body, chain)
    ensures chain[|chain| - 1].id in m
    decreases |chain|
  {
    var n := |chain| - 1;
    assert Occurs(body, chain[n]);
    if n > 0 {
      ChainNeeded(body, m, chain[..n]);
      assert Reads(chain[n - 1], chain[n - 1 + 1].id);
      ReadsIff(chain[n - 1], chain[n]);
      assert Occurs(body, chain[n - 1]);
    }
  }

  /** The closure are the instructions that a chain of reads leads to from one with an effect. */
  lemma NeededExactly(body: Body, m: set<nat>)
    requires UniqueIds(body) && LeastClosed(body, m)
    ensures forall x :: x in m <==> NeededFor(body, x)
  {
    hide UniqueIds, LeastClosed, NeededFor, ClosedUnder;
    LeastIsClosed(body, m);
    forall x | NeededFor(body, x)
      ensures x in m
    {
      EndNeeded(body, m, x);
    }
    var s := set x | x in m && NeededFor(body, x);
    ChainsClosed(body, m, s);
    BelowClosed(body, m, s);
  }

  lemma EndNeeded(body: Body, m: set<nat>, x: nat)
    requires ClosedUnder(body, m) && NeededFor(body, x)
    ensures x in m
  {
    hide ClosedUnder;
    var chain: seq<Ins> :| ReadingChain(body, chain) && chain[|chain| - 1].id == x;
    ChainNeeded(body, m, chain);
  }

  lemma BelowClosed(body: Body, m: set<nat>, s: set<nat>)
    requires LeastClosed(body, m) && ClosedUnder(body, s)
    ensures m <= s
  {
  }

  lemma ChainsClosed(body: Body, m: set<nat>, s: set<nat>)
    requires UniqueIds(body) && ClosedUnder(body, m) && forall x :: x in s <==> x in m && NeededFor(body, x)
    ensures ClosedUnder(body, s)
  {
    hide NeededFor, UniqueIds;
    forall i | Occurs(body, i) && i.IsCritical()
      ensures i.id in s
    {
      ChainStarts(body, i);
    }
    forall i, j | Occurs(body, i) && i.id in s && Occurs(body, j) && DependsOn(i, j)
      ensures j.id in s
    {
      ChainGoesOn(body, i, j);
    }
  }

  lemma ChainStarts(body: Body, i: Ins)
    requires Occurs(body, i) && i.IsCritical()
    ensures NeededFor(body, i.id)
  {
    assert ReadingChain(body, [i]) && [i][|[i]| - 1].id == i.id;
  }

  lemma ChainGoesOn(body: Body, i: Ins, j: Ins)
    requires UniqueIds(body) && NeededFor(body, i.id) && Occurs(body, i) && Occurs(body, j) && DependsOn(i, j)
    ensures NeededFor(body, j.id)
  {
    var chain: seq<Ins> :| ReadingChain(body, chain) && chain[|chain| - 1].id == i.id;
    assert Occurs(body, chain[|chain| - 1]);
    assert chain[|chain| - 1] == i;
    hide UniqueIds, Occurs, Reads, DependsOn;
    ReadsIff(i, j);
    var longer := chain + [j];
    forall k | 0 <= k < |longer| - 1
      ensures Reads(longer[k], longer[k + 1].id)
    {
      if k < |chain| - 1 {
        assert Reads(chain[k], chain[k + 1].id);
      }
    }
    assert ReadingChain(body, longer) && longer[|longer| - 1].id == j.id;
  }

  /** Dead code elimination: what is left is what the critical instructions need, and on every path it does the same. */
  method Eliminate(body: Body) returns (body': Body, ghost needed: set<nat>)
    requires UniqueIds(body)
    ensures LeastClosed(body, needed) && body' == Swept(body, needed)
    ensures forall x :: x in needed <==> NeededFor(body, x)
    ensures forall f: Machine, start: map<nat, int>, path: seq<Block> ::
              PathIn(body, path) ==> TraceKept(f, body, body', start, path)
  {
    hide UniqueIds, LeastClosed, Swept, Run, NeededFor;
    var pass := new DeadCode(body);
    needed := pass.Run();
    body' := pass.body;
    NeededExactly(body, needed);
    forall f: Machine, start: map<nat, int>, path: seq<Block> | PathIn(body, path)
      ensures TraceKept(f, body, body', start, path)
    {
      LeastIsClosed(body, needed);
      SweepKeepsTrace(f, body, needed, start, path);
    }
  }

  lemma LeastIsClosed(body: Body, m: set<nat>)
    requires LeastClosed(body, m)
    ensures ClosedUnder(body, m)
  {
  }
}
