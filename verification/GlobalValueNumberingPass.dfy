/** Value numbering over the dominator tree: an instruction is replaced by an earlier one with the same number, or by
    the constant it folds to. */
module GlobalValueNumberingPass {
  import opened Graphs
  import opened DomTrees
  import opened DominatorAnalysis
  import opened ValueNumbering
  import opened LeaderTables
  import opened Survivors
  import opened NumberedRuns

  class Gvn {
    const body: Body
    const domTreeSucc: map<Block, set<Block>>
    const isVoid: Val -> bool
    const vn: ValueTable
    var leaderTable: map<nat, Val>
    var history: seq<(nat, Val)>
    var replaceMap: map<Val, Val>

    constructor (body: Body, domTreeSucc: map<Block, set<Block>>, isVoid: Val -> bool)
      ensures this.body == body && this.domTreeSucc == domTreeSucc && this.isVoid == isVoid
      ensures fresh(vn) && vn.Good() && leaderTable == map[] && history == [] && replaceMap == map[]
    {
      this.body, this.domTreeSucc, this.isVoid := body, domTreeSucc, isVoid;
      vn := new ValueTable();
      leaderTable, history, replaceMap := map[], [], map[];
    }

    ghost function State(): Walk
      reads this, vn
    {
      Walk(vn.valueNumbering, leaderTable, history, replaceMap)
    }

    /** One instruction: it gets a number, and is replaced or becomes the leader of the number. */
    method ScanIns(b: Block, k: nat, ghost t: Tree, ghost post: Numbering, ghost done: set<Block>)
      requires Shape(t, post, body, domTreeSucc) && b in t && b !in done && k < |body[b]|
      requires vn.Good() && Walking(t, post, body, done, b, k, State()) && SameNumbers(State(), vn.constNumbering)
      modifies this`leaderTable, this`history, this`replaceMap, vn
      ensures vn.Good() && Walking(t, post, body, done, b, k + 1, State())
      ensures SameNumbers(State(), vn.constNumbering)
      ensures old(history) <= history
      ensures forall n :: n in old(leaderTable) ==> n in leaderTable && leaderTable[n] == old(leaderTable[n])
      ensures Grows(old(State()), old(vn.constNumbering), State(), vn.constNumbering)
      ensures Scanned(old(State()), State(), vn.constNumbering, isVoid, body[b][k])
    {
      hide Walking, Sound, Listed, Extends, SameValue, Val.WellFormed, Shape, HistoryOk, IsTree, ChildrenBelow,
           SameNumbers, Grows, BodyOk;
      ghost var g0, c0 := State(), vn.constNumbering;
      GrowsSelf(g0, vn.constNumbering, g0);
      ShapeTree(t, post, body, domTreeSucc);
      InsOk(t, post, body, domTreeSucc, b, k);
      var inst := body[b][k];
      if isVoid(inst) || inst in replaceMap {
        PassOver(t, post, body, done, b, k, g0, g0);
        return;
      }
      ghost var t0, rep0 := vn.Now(), vn.rep;
      var num := vn.LookupOrAdd(inst);
      NumbersKept(t0, rep0, vn.Now(), vn.rep);
      ghost var g := State();
      NumbersGrow(t0, rep0, vn.Now(), vn.rep, g0, g);
      SameNumbersStay(g0, c0, g, vn.constNumbering);
      PassOver(t, post, body, done, b, k, g0, g);
      if num in leaderTable {
        LeaderSame(t, post, body, done, b, k, g, vn.Now(), vn.rep, inst, num);
        ReplaceHere(t, post, body, done, b, k, g, g0, leaderTable[num]);
        SameNumbersMore(g, vn.constNumbering, inst, leaderTable[num]);
        replaceMap := replaceMap[inst := leaderTable[num]];
        NumbersGrow(t0, rep0, vn.Now(), vn.rep, g0, State());
        return;
      }
      if num in vn.constNumbering {
        ConstSame(vn.Now(), vn.rep, inst, num);
        ReplaceHere(t, post, body, done, b, k, g, g0, vn.constNumbering[num]);
        SameNumbersMore(g, vn.constNumbering, inst, vn.constNumbering[num]);
        replaceMap := replaceMap[inst := vn.constNumbering[num]];
        NumbersGrow(t0, rep0, vn.Now(), vn.rep, g0, State());
        return;
      }
      LeadHere(t, post, body, done, b, k, g, g0, num);
      leaderTable := leaderTable[num := inst];
      history := history + [(num, inst)];
      GrowsSelf(g, vn.constNumbering, State());
      NumbersGrow(t0, rep0, vn.Now(), vn.rep, g0, State());
      SameNumbersStay(g, vn.constNumbering, State(), vn.constNumbering);
    }

    /** The block, the blocks below it in the dominator tree, and then the bindings are undone. */
    method AnalyzeGVN(bb: Block, ghost t: Tree, ghost post: Numbering, ghost done: set<Block>)
        returns (ghost done': set<Block>)
      requires Shape(t, post, body, domTreeSucc) && bb in t && done !! Subtree(t, post, bb)
      requires vn.Good() && Walking(t, post, body, done, bb, 0, State())
      requires DealtIn(t, post, body, isVoid, done, State(), vn.constNumbering)
      requires LeadsAbove(t, post, body, isVoid, bb, 0, State()) && SameNumbers(State(), vn.constNumbering)
      modifies this`leaderTable, this`history, this`replaceMap, vn
      ensures vn.Good() && Walked(t, post, body, done, done', bb, old(State()), State())
      ensures DealtIn(t, post, body, isVoid, done', State(), vn.constNumbering)
      ensures Grows(old(State()), old(vn.constNumbering), State(), vn.constNumbering)
      ensures SameNumbers(State(), vn.constNumbering)
      decreases if bb in post then post[bb] else 0
    {
      hide Walking, HistoryOk, Sound, Listed, BetweenChildren, Walked, Subtree, Shape, IsTree, ChildrenBelow, BodyOk,
           DealtIn, LeadsAbove, Grows, Thorough, Scanned, SameNumbers;
      ghost var g0, c0 := State(), vn.constNumbering;
      ShapeTree(t, post, body, domTreeSucc);
      ThoroughStart(t, post, body, isVoid, done, bb, g0, c0);
      GrowsSelf(g0, c0, g0);
      NotDone(t, post, body, domTreeSucc, bb, done);
      var oldSize := |history|;
      for k := 0 to |body[bb]|
        invariant vn.Good() && Walking(t, post, body, done, bb, k, State())
        invariant g0.history <= history
        invariant forall n :: n in g0.leaders ==> n in leaderTable && leaderTable[n] == g0.leaders[n]
        invariant Thorough(t, post, body, isVoid, done, bb, k, State(), vn.constNumbering)
        invariant Grows(g0, c0, State(), vn.constNumbering) && SameNumbers(State(), vn.constNumbering)
      {
        ghost var g, c := State(), vn.constNumbering;
        ScanIns(bb, k, t, post, done);
        ThoroughStep(t, post, body, isVoid, done, bb, k, g, c, State(), vn.constNumbering);
        GrowsTrans(g0, c0, g, c, State(), vn.constNumbering);
      }
      ghost var g1 := State();
      ThoroughEnd(t, post, body, isVoid, done, bb, g1, vn.constNumbering);
      NumbersStay(g0, c0, g1, vn.constNumbering);
      done' := done + {bb};
      ghost var children := {};
      FirstChild(t, post, body, done, bb, g1);
      var rest := domTreeSucc[bb];
      while rest != {}
        invariant rest <= domTreeSucc[bb] && children == domTreeSucc[bb] - rest
        invariant vn.Good() && BetweenChildren(t, post, body, done, done', bb, children, g1, State())
        invariant DealtIn(t, post, body, isVoid, done', State(), vn.constNumbering)
        invariant LeadsAbove(t, post, body, isVoid, bb, |body[bb]|, State())
        invariant Grows(g0, c0, State(), vn.constNumbering) && SameNumbers(State(), vn.constNumbering)
        decreases rest
      {
        var succ :| succ in rest;
        ghost var g2, c2, done2 := State(), vn.constNumbering, done';
        ToChild(t, post, body, domTreeSucc, done, done2, bb, children, succ, g1, g2);
        LeadsChild(t, post, body, isVoid, bb, succ, g2);
        done' := AnalyzeGVN(succ, t, post, done2);
        FromChild(t, post, body, domTreeSucc, done, done2, done', bb, children, succ, g1, g2, State());
        BackUp(t, post, body, isVoid, done2, done', bb, succ, g2, c2, State(), vn.constNumbering);
        GrowsTrans(g0, c0, g2, c2, State(), vn.constNumbering);
        children, rest := children + {succ}, rest - {succ};
      }
      ghost var g3, c3 := State(), vn.constNumbering;
      AfterChildren(t, post, body, domTreeSucc, done, done', bb, children, g0, g1, g3);
      while |history| > oldSize
        invariant oldSize <= |history| && history <= g3.history && HistoryOk(State())
        invariant replaceMap == g3.replace && vn.valueNumbering == g3.numbers && vn.Good() && vn.constNumbering == c3
        decreases |history|
      {
        HistoryLess(State());
        var bind := history[|history| - 1];
        history := history[..|history| - 1];
        leaderTable := leaderTable - {bind.0};
      }
      Restored(t, post, body, done, done', bb, g0, g1, g3, State());
      GrowsSelf(g3, c3, State());
      SameNumbersStay(g3, c3, State(), c3);
      GrowsTrans(g0, c0, g3, c3, State(), c3);
      DealtStays(t, post, body, isVoid, done', g3, c3, State(), c3);
    }

    /** The whole function, from the entry block. */
    method RunOnFunction(ghost t: Tree, ghost post: Numbering)
      requires Shape(t, post, body, domTreeSucc)
      requires vn.Good() && leaderTable == map[] && history == [] && replaceMap == map[]
      modifies this`leaderTable, this`history, this`replaceMap, vn
      ensures vn.Good() && leaderTable == map[] && history == []
      ensures forall v :: v in replaceMap ==> Replaces(t, post, body, v, replaceMap[v]) && replaceMap[v] !in replaceMap
      ensures forall v :: v in replaceMap ==> StandsIn(body, v)
      ensures DealtIn(t, post, body, isVoid, t.Keys, State(), vn.constNumbering)
      ensures SameNumbers(State(), vn.constNumbering)
    {
      hide Walked, Sound, Listed, DealtIn, LeadsAbove, Grows;
      ghost var g0 := State();
      EntryTree(t, post, body, domTreeSucc);
      NothingAbove(t, post, body, isVoid, g0);
      NothingDone(t, post, body, isVoid, g0, vn.constNumbering);
      ghost var done := AnalyzeGVN(ENTRY, t, post, {});
      AllReplaced(t, post, body, {}, done, ENTRY, g0, State());
      AllBelowEntry(t, post, body, done, g0, State());
    }
  }

  lemma NothingDone(t: Tree, post: Numbering, body: Body, isVoid: Val -> bool, g: Walk, consts: Consts)
    requires IsTree(t, post)
    ensures DealtIn(t, post, body, isVoid, {}, g, consts)
  {
  }

  lemma EntryTree(t: Tree, post: Numbering, body: Body, domTreeSucc: map<Block, set<Block>>)
    requires Shape(t, post, body, domTreeSucc)
    ensures IsTree(t, post) && ENTRY in t
  {
    hide BodyOk, ChildrenBelow;
  }

  lemma AllBelowEntry(t: Tree, post: Numbering, body: Body, done: set<Block>, g: Walk, g': Walk)
    requires IsTree(t, post) && ENTRY in t && Walked(t, post, body, {}, done, ENTRY, g, g')
    ensures done == t.Keys
  {
    hide ReplacedOk;
    forall x | x in t
      ensures x in done
    {
      RootIsAnc(t, post, x);
    }
  }

  lemma ShapeTree(t: Tree, post: Numbering, body: Body, domTreeSucc: map<Block, set<Block>>)
    requires Shape(t, post, body, domTreeSucc)
    ensures IsTree(t, post) && BodyOk(body) && forall b :: b in t ==> b < |body| && b in domTreeSucc && b in post
  {
    hide BodyOk, ChildrenBelow;
  }

  lemma InsOk(t: Tree, post: Numbering, body: Body, domTreeSucc: map<Block, set<Block>>, b: Block, k: nat)
    requires Shape(t, post, body, domTreeSucc) && b in t && k < |body[b]|
    ensures body[b][k].Instr? && body[b][k].WellFormed()
  {
    hide ChildrenBelow, IsTree;
  }

  lemma NotDone(t: Tree, post: Numbering, body: Body, domTreeSucc: map<Block, set<Block>>, b: Block, done: set<Block>)
    requires Shape(t, post, body, domTreeSucc) && b in t && done !! Subtree(t, post, b)
    ensures b !in done
  {
    hide ChildrenBelow, BodyOk;
    assert b in Subtree(t, post, b);
  }

  lemma LeaderSame(t: Tree, post: Numbering, body: Body, done: set<Block>, b: Block, k: nat, g: Walk, u: Tables,
                   rep: map<nat, Val>, v: Val, n: nat)
    requires IsTree(t, post) && b in t && Walking(t, post, body, done, b, k + 1, g) && g.numbers == u.numbers
    requires Sound(u, rep) && v in u.numbers && u.numbers[v] == n && n in g.leaders
    ensures SameValue(v, g.leaders[n]) && g.leaders[n].Instr?
    ensures g.leaders[n] in g.numbers && g.numbers[g.leaders[n]] == n
  {
    hide Sound, SameValue, HistoryOk, IsTree, Seen, Above, ReplacedOk;
    assert LeaderOk(t, post, body, b, k + 1, g, n);
    EqualNumbersEqualValues(u, rep, v, g.leaders[n]);
  }

  lemma ConstSame(u: Tables, rep: map<nat, Val>, v: Val, n: nat)
    requires Sound(u, rep) && v in u.numbers && u.numbers[v] == n && n in u.consts
    ensures SameValue(v, u.consts[n]) && u.consts[n].IsConstant()
    ensures u.consts[n] in u.numbers && u.numbers[u.consts[n]] == n
  {
    hide Meaning, ExprSound;
    assert SameValue(v, rep[n]) && SameValue(u.consts[n], rep[n]);
    forall w: World
      ensures Meaning(w, v) == Meaning(w, u.consts[n])
    {
      assert Meaning(w, v) == Meaning(w, rep[n]) && Meaning(w, u.consts[n]) == Meaning(w, rep[n]);
    }
  }

  lemma FirstChild(t: Tree, post: Numbering, body: Body, done: set<Block>, b: Block, g: Walk)
    requires IsTree(t, post) && b in t && b < |body| && Walking(t, post, body, done, b, |body[b]|, g)
    ensures BetweenChildren(t, post, body, done, done + {b}, b, {}, g, g)
  {
    hide IsTree, Above, Replaces, InBlocks, InBlock, HistoryOk;
    forall n | n in g.leaders
      ensures LeaderOk(t, post, body, b, |body[b]|, g, n) && Seen(body, done + {b}, b, |body[b]|, g.leaders[n])
    {
      assert LeaderOk(t, post, body, b, |body[b]|, g, n);
      SeenGrows(body, done, done + {b}, b, |body[b]|, |body[b]|, g.leaders[n]);
    }
    forall v | v in g.replace
      ensures ReplacedOk(t, post, body, done + {b}, b, |body[b]|, g, v)
    {
      assert ReplacedOk(t, post, body, done, b, |body[b]|, g, v);
      SeenGrows(body, done, done + {b}, b, |body[b]|, |body[b]|, v);
      if g.replace[v].Instr? {
        SeenGrows(body, done, done + {b}, b, |body[b]|, |body[b]|, g.replace[v]);
      }
    }
  }

  lemma ChildOf(t: Tree, post: Numbering, body: Body, domTreeSucc: map<Block, set<Block>>, b: Block, c: Block)
    requires Shape(t, post, body, domTreeSucc) && b in t && c in domTreeSucc[b]
    ensures c in t && c != ENTRY && Parent(t, c) == b && post[c] < post[b]
  {
    hide BodyOk;
  }

  /** The blocks below the next child have not been visited. */
  lemma ToChild(t: Tree, post: Numbering, body: Body, domTreeSucc: map<Block, set<Block>>, done: set<Block>,
                done': set<Block>, b: Block, children: set<Block>, c: Block, g: Walk, g': Walk)
    requires Shape(t, post, body, domTreeSucc) && b in t && done !! Subtree(t, post, b)
    requires children <= domTreeSucc[b] && c in domTreeSucc[b] && c !in children
    requires BetweenChildren(t, post, body, done, done', b, children, g, g')
    ensures c in t && c in post && b in post && post[c] < post[b] && done' !! Subtree(t, post, c)
    ensures c != ENTRY && Parent(t, c) == b
    ensures Walking(t, post, body, done', c, 0, g')
  {
    hide Walking, BodyOk, ChildrenBelow, Anc;
    ChildOf(t, post, body, domTreeSucc, b, c);
    SubtreeOfChild(t, post, b, c);
    GoDown(t, post, body, done', b, c, g');
    forall x | x in done'
      ensures x !in Subtree(t, post, c)
    {
      if x !in done && x != b {
        var d :| d in children && d in t && x in Subtree(t, post, d);
        ChildOf(t, post, body, domTreeSucc, b, d);
        SiblingsApart(t, post, b, c, d);
      }
    }
  }

  lemma FromChild(t: Tree, post: Numbering, body: Body, domTreeSucc: map<Block, set<Block>>, done: set<Block>,
                  done2: set<Block>, done': set<Block>, b: Block, children: set<Block>, c: Block, g: Walk, g2: Walk, g': Walk)
    requires Shape(t, post, body, domTreeSucc) && b in t && c in t
    requires BetweenChildren(t, post, body, done, done2, b, children, g, g2)
    requires Walked(t, post, body, done2, done', c, g2, g')
    ensures BetweenChildren(t, post, body, done, done', b, children + {c}, g, g')
  {
    hide Walking, BodyOk, ChildrenBelow, Subtree, ReplacedOk, IsTree;
    forall v | v in g'.replace
      ensures ReplacedOk(t, post, body, done', b, 0, g', v)
    {
      FromStart(t, post, body, done', c, b, g', v);
    }
    GoUp(t, post, body, done2, done', b, g2, g');
    forall x | x in done'
      ensures x in done || x == b || exists d :: d in children + {c} && d in t && x in Subtree(t, post, d)
    {
      if x !in done2 {
        assert c in children + {c} && x in Subtree(t, post, c);
      } else if x !in done && x != b {
        var d :| d in children && d in t && x in Subtree(t, post, d);
        assert d in children + {c};
      }
    }
  }

  /** Before the first instruction of a block, only finished blocks have been seen. */
  lemma FromStart(t: Tree, post: Numbering, body: Body, done: set<Block>, c: Block, b: Block, g: Walk, v: Val)
    requires IsTree(t, post) && v in g.replace && ReplacedOk(t, post, body, done, c, 0, g, v)
    ensures ReplacedOk(t, post, body, done, b, 0, g, v)
  {
    hide IsTree, Replaces, InBlocks;
  }

  lemma AfterChildren(t: Tree, post: Numbering, body: Body, domTreeSucc: map<Block, set<Block>>, done: set<Block>,
                      done': set<Block>, b: Block, children: set<Block>, g0: Walk, g1: Walk, g3: Walk)
    requires Shape(t, post, body, domTreeSucc) && b in t && children == domTreeSucc[b]
    requires BetweenChildren(t, post, body, done, done', b, children, g1, g3)
    requires g0.history <= g1.history && forall n :: n in g0.leaders ==> n in g1.leaders && g1.leaders[n] == g0.leaders[n]
    requires forall v :: v in g0.numbers ==> v in g1.numbers && g1.numbers[v] == g0.numbers[v]
    ensures done' == done + Subtree(t, post, b) && b in done'
    ensures HistoryOk(g3) && g3.history == g1.history
    ensures forall v :: v in g0.numbers ==> v in g3.numbers && g3.numbers[v] == g0.numbers[v]
    ensures forall v :: v in g3.replace ==> ReplacedOk(t, post, body, done', b, 0, g3, v)
    ensures forall n :: n in g0.leaders ==> g0.leaders[n] !in g3.replace
  {
    hide BodyOk, ChildrenBelow, IsTree, Anc, Seen, Above, Replaces, HistoryOk;
    WholeSubtree(t, post, body, domTreeSucc, done, done', b, children, g1, g3);
    forall v | v in g3.replace
      ensures ReplacedOk(t, post, body, done', b, 0, g3, v)
    {
      assert ReplacedOk(t, post, body, done', b, |body[b]|, g3, v);
      SeenFinished(body, done', b, v);
      if g3.replace[v].Instr? {
        SeenFinished(body, done', b, g3.replace[v]);
      }
    }
    forall n | n in g0.leaders
      ensures g0.leaders[n] !in g3.replace
    {
      assert LeaderOk(t, post, body, b, |body[b]|, g3, n);
    }
  }

  lemma WholeSubtree(t: Tree, post: Numbering, body: Body, domTreeSucc: map<Block, set<Block>>, done: set<Block>,
                     done': set<Block>, b: Block, children: set<Block>, g1: Walk, g3: Walk)
    requires Shape(t, post, body, domTreeSucc) && b in t && children == domTreeSucc[b]
    requires BetweenChildren(t, post, body, done, done', b, children, g1, g3)
    ensures done' == done + Subtree(t, post, b) && b in done'
  {
    hide BodyOk, Walking;
    assert b in Subtree(t, post, b);
    forall x | x in done'
      ensures x in done + Subtree(t, post, b)
    {
      if x !in done && x != b {
        var d :| d in children && d in t && x in Subtree(t, post, d);
        ChildOf(t, post, body, domTreeSucc, b, d);
        SubtreeOfChild(t, post, b, d);
      }
    }
    forall x | x in Subtree(t, post, b)
      ensures x in done'
    {
      if x != b {
        var c := ChildTowards(t, post, b, x);
        assert c in children;
      }
    }
  }

  /** Back at the end of `b` after a child. */
  lemma BackUp(t: Tree, post: Numbering, body: Body, isVoid: Val -> bool, done: set<Block>, done': set<Block>, b: Block,
               c: Block, g: Walk, consts: Consts, g': Walk, consts': Consts)
    requires IsTree(t, post) && b in t && c in t && b < |body| && Walked(t, post, body, done, done', c, g, g')
    requires LeadsAbove(t, post, body, isVoid, b, |body[b]|, g) && Grows(g, consts, g', consts')
    ensures LeadsAbove(t, post, body, isVoid, b, |body[b]|, g')
  {
    hide IsTree, LeadsAbove, Grows, Subtree, ReplacedOk;
    LeadsAgain(t, post, body, isVoid, b, |body[b]|, g, consts, g', consts');
  }

  lemma NumbersStay(g: Walk, consts: Consts, g': Walk, consts': Consts)
    requires Grows(g, consts, g', consts')
    ensures forall v :: v in g.numbers ==> v in g'.numbers && g'.numbers[v] == g.numbers[v]
  {
  }

  lemma SeenFinished(body: Body, done: set<Block>, b: Block, v: Val)
    requires b in done && b < |body| && Seen(body, done, b, |body[b]|, v)
    ensures Seen(body, done, b, 0, v)
  {
    SeenWhole(body, done, b, v);
    assert done + {b} == done;
  }

  /** Popping the history back to its old length restores the bindings. */
  lemma Restored(t: Tree, post: Numbering, body: Body, done: set<Block>, done': set<Block>, b: Block,
                 g0: Walk, g1: Walk, g3: Walk, g: Walk)
    requires IsTree(t, post) && b in t && Walking(t, post, body, done, b, 0, g0)
    requires g0.history <= g1.history == g3.history && |g.history| == |g0.history| && g.history <= g3.history
    requires HistoryOk(g)
    requires g.replace == g3.replace && g.numbers == g3.numbers
    requires done' == done + Subtree(t, post, b)
    requires forall v :: v in g0.numbers ==> v in g3.numbers && g3.numbers[v] == g0.numbers[v]
    requires forall v :: v in g3.replace ==> ReplacedOk(t, post, body, done', b, 0, g3, v)
    requires forall n :: n in g0.leaders ==> g0.leaders[n] !in g3.replace
    ensures Walked(t, post, body, done, done', b, g0, g)
  {
    hide IsTree, Subtree, HistoryOk, Seen, Replaces, Above;
    assert g.history == g3.history[..|g0.history|] == g0.history;
    SameHistory(g0, g);
    forall v | v in g.replace
      ensures ReplacedOk(t, post, body, done', b, 0, g, v)
    {
      assert ReplacedOk(t, post, body, done', b, 0, g3, v);
    }
  }

  lemma AllReplaced(t: Tree, post: Numbering, body: Body, done: set<Block>, done': set<Block>, b: Block, g: Walk,
                    g': Walk)
    requires IsTree(t, post) && BodyOk(body) && b in t && Walked(t, post, body, done, done', b, g, g')
    ensures g'.leaders == g.leaders && g'.history == g.history
    ensures forall v :: v in g'.replace ==> Replaces(t, post, body, v, g'.replace[v]) && g'.replace[v] !in g'.replace
    ensures forall v :: v in g'.replace ==> StandsIn(body, v)
  {
    hide IsTree, Subtree, Seen, Replaces, BodyOk, StandsIn;
    forall v | v in g'.replace
      ensures Replaces(t, post, body, v, g'.replace[v]) && g'.replace[v] !in g'.replace && StandsIn(body, v)
    {
      assert ReplacedOk(t, post, body, done', b, 0, g', v);
      SeenInstr(body, done', b, v);
      var r := g'.replace[v];
      ConstOrInstr(t, post, body, v, r);
      if r in g'.replace {
        assert ReplacedOk(t, post, body, done', b, 0, g', r);
        SeenInstr(body, done', b, r);
      }
    }
  }

  lemma ConstOrInstr(t: Tree, post: Numbering, body: Body, v: Val, r: Val)
    requires IsTree(t, post) && BodyOk(body) && Replaces(t, post, body, v, r)
    ensures r.IsConstant() || r.Instr?
  {
    hide IsTree, SameValue, Anc;
    if !r.IsConstant() {
      var b: Block, k: nat :| ReplacesAt(t, post, body, b, k, v, r);
    }
  }

  lemma SeenInstr(body: Body, done: set<Block>, b: Block, v: Val)
    requires BodyOk(body) && Seen(body, done, b, 0, v)
    ensures v.Instr? && StandsIn(body, v)
  {
  }

  /** With the immediate dominators as the tree, the replacement stands earlier in the block or in a block that
      strictly dominates it. */
  lemma ReplacementDominates(g: Cfg, t: Tree, post: Numbering, body: Body, v: Val, r: Val)
    requires IsTree(t, post) && PostOrdered(g, post) && Fixpoint(g, t, post) && KeepsDominators(g, t)
    requires Replaces(t, post, body, v, r) && r.Instr?
    ensures StandsAbove(g, body, v, r)
  {
    hide PostOrdered, Fixpoint, KeepsDominators, SameValue;
    var b: Block, k: nat :| ReplacesAt(t, post, body, b, k, v, r);
    if !InBlock(body, b, k, r) {
      var c :| c in Anc(t, post, b) - {b} && c < |body| && InBlock(body, c, |body[c]|, r);
      AncestorsAreDominators(g, t, post, b, c);
      assert g.StrictlyDominates(c, b) && InBlock(body, c, |body[c]|, r);
    }
    assert ComesBefore(g, body, b, k, r);
  }

  /** Value numbering of a function over its dominator tree. */
  method NumberFunction(g: Cfg, body: Body, isVoid: Val -> bool)
      returns (replace: map<Val, Val>, ghost u: Tables)
    requires g.Valid() && (forall b: Block :: b < g.Size() ==> g.Reachable(b)) && |body| == g.Size() && BodyOk(body)
    ensures forall v :: v in replace ==> SameValue(v, replace[v]) && replace[v] !in replace
    ensures forall v :: v in replace ==> replace[v].IsConstant() || StandsAbove(g, body, v, replace[v])
    ensures Listed(u)
    ensures forall a, b :: a in u.numbers && b in u.numbers && u.numbers[a] == u.numbers[b] ==> SameValue(a, b)
    ensures forall b: Block, k: nat :: b < |body| && k < |body[b]| ==> Distinct(g, body, isVoid, replace, u, b, k)
    ensures Irredundant(g, body, isVoid, replace)
    ensures KeepsRuns(g, body, replace)
  {
    hide BodyOk, IsImmediateDominator, ExactFrontiers, SameValue, PostOrdered, Fixpoint, KeepsDominators, Replaces, Sound,
         Listed, StandsAbove, StandsIn, KeepsRuns, SameNumbers, Irredundant;
    var dom := new Dominators(g);
    dom.Run();
    var gvn := new Gvn(body, dom.domTreeSucc, isVoid);
    DominatorShape(g, dom.idom, dom.postOrderId, body, dom.domTreeSucc);
    gvn.RunOnFunction(dom.idom, dom.postOrderId);
    replace, u := gvn.replaceMap, gvn.vn.Now();
    forall a, b | a in u.numbers && b in u.numbers && u.numbers[a] == u.numbers[b]
      ensures SameValue(a, b)
    {
      EqualNumbersEqualValues(u, gvn.vn.rep, a, b);
    }
    forall b: Block, k: nat | b < |body| && k < |body[b]|
      ensures Distinct(g, body, isVoid, replace, u, b, k)
    {
      OneDealt(dom.idom, dom.postOrderId, body, isVoid, dom.idom.Keys, gvn.State(), u.consts, b, k);
      AllDistinct(g, dom.idom, dom.postOrderId, body, isVoid, gvn.State(), u, b, k);
    }
    NothingRedundant(g, body, isVoid, gvn.State(), u, gvn.vn.rep);
    forall v | v in replace
      ensures SameValue(v, replace[v]) && (replace[v].IsConstant() || StandsAbove(g, body, v, replace[v]))
    {
      ReplacementStands(g, dom.idom, dom.postOrderId, body, v, replace[v]);
    }
    NothingChanged(g, body, replace);
  }

  lemma OneDealt(t: Tree, post: Numbering, body: Body, isVoid: Val -> bool, done: set<Block>, g: Walk, consts: Consts,
                 b: Block, k: nat)
    requires IsTree(t, post) && DealtIn(t, post, body, isVoid, done, g, consts)
    requires b in done && b < |body| && k < |body[b]|
    ensures b in t && Dealt(t, post, body, isVoid, b, k, g, consts)
  {
    hide IsTree, Dealt;
  }

  lemma DominatorShape(g: Cfg, t: Tree, post: Numbering, body: Body, domTreeSucc: map<Block, set<Block>>)
    requires PostOrdered(g, post) && Fixpoint(g, t, post) && KeepsDominators(g, t)
    requires BodyOk(body) && domTreeSucc.Keys == t.Keys && ChildrenBelow(t, domTreeSucc, |body|)
    requires forall b: Block :: b in t <==> b < |body|
    ensures Shape(t, post, body, domTreeSucc)
  {
    hide BodyOk, ChildrenBelow;
  }

  lemma ReplacementStands(g: Cfg, t: Tree, post: Numbering, body: Body, v: Val, r: Val)
    requires IsTree(t, post) && PostOrdered(g, post) && Fixpoint(g, t, post) && KeepsDominators(g, t)
    requires BodyOk(body) && Replaces(t, post, body, v, r)
    ensures SameValue(v, r) && (r.IsConstant() || StandsAbove(g, body, v, r))
  {
    hide PostOrdered, Fixpoint, KeepsDominators, SameValue, BodyOk, IsTree, Anc;
    ConstOrInstr(t, post, body, v, r);
    if !r.IsConstant() {
      ReplacementDominates(g, t, post, body, v, r);
    }
  }
}
