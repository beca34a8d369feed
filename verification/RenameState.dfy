/** What the renaming walk has established while it is under way: the blocks it has finished, the loads it has
    replaced, the operands it has given to phis, and the stacks of reaching definitions. */
module RenameState {
  import opened Graphs
  import opened DomTrees
  import opened MemoryIr
  import opened ReachingDefs
  import opened PromotionProof

  function RewriteAll(s: Renaming, code: seq<Instr>): (r: seq<Instr>)
    ensures |r| == |code| && forall j :: 0 <= j < |code| ==> r[j] == Rewrite(s, code[j])
  {
    seq(|code|, j requires 0 <= j < |code| => Rewrite(s, code[j]))
  }

  function RewriteBody(s: Renaming, body: Body): (r: Body)
    ensures |r| == |body| && forall b :: 0 <= b < |body| ==> r[b] == RewriteAll(s, body[b])
  {
    seq(|body|, b requires 0 <= b < |body| => RewriteAll(s, body[b]))
  }

  function RewritePairs(s: Renaming, pairs: seq<(Value, Block)>): (r: seq<(Value, Block)>)
    ensures |r| == |pairs| && forall j :: 0 <= j < |pairs| ==> r[j] == (Res(s, pairs[j].0), pairs[j].1)
  {
    seq(|pairs|, j requires 0 <= j < |pairs| => (Res(s, pairs[j].0), pairs[j].1))
  }

  /** Replacing one more load after `s`. */
  lemma RewriteMore(s: Renaming, id: nat, v: Value, i: Instr)
    requires id !in s && forall k :: k in s ==> s[k] != Result(id)
    ensures Rewrite(map[id := v], Rewrite(s, i)) == Rewrite(s[id := v], i)
  {
    forall u: Value
      ensures Res(map[id := v], Res(s, u)) == Res(s[id := v], u)
    {
    }
    if i.Op? {
      assert Rewrite(map[id := v], Rewrite(s, i)).args == Rewrite(s[id := v], i).args;
    }
  }

  lemma RewriteBodyMore(s: Renaming, id: nat, v: Value, body: Body)
    requires id !in s && forall k :: k in s ==> s[k] != Result(id)
    ensures RewriteBody(map[id := v], RewriteBody(s, body)) == RewriteBody(s[id := v], body)
  {
    forall b | 0 <= b < |body|
      ensures RewriteAll(map[id := v], RewriteAll(s, body[b])) == RewriteAll(s[id := v], body[b])
    {
      forall j | 0 <= j < |body[b]|
        ensures Rewrite(map[id := v], Rewrite(s, body[b][j])) == Rewrite(s[id := v], body[b][j])
      {
        RewriteMore(s, id, v, body[b][j]);
      }
    }
  }

  /** `v` is not a promoted load that is still waiting to be replaced. */
  predicate SettledValue(f: Func, s: Renaming, v: Value) {
    v.Result? && f.IsPromotedLoad(v.id) ==> v.id in s
  }

  /** `v` is not a promoted load at all. */
  predicate Final(f: Func, v: Value) {
    v.Result? ==> !f.IsPromotedLoad(v.id)
  }

  /** `v` is not the address of a promoted variable. */
  predicate NotVariable(f: Func, v: Value) {
    v.Result? ==> v.id !in f.prom
  }

  /** The loads in `s` are replaced by their resolved reaching definitions. */
  ghost predicate PartlyResolved(f: Func, s: Renaming)
    requires f.HasTree()
  {
    forall id :: id in s ==>
      && f.IsPromotedLoad(id)
      && SettledValue(f, s, LoadReach(f, id))
      && s[id] == Res(s, LoadReach(f, id))
      && Final(f, s[id])
  }

  /** `s` covers the promoted loads of the finished blocks and of the first `j` instructions of `b`. */
  ghost predicate Covers(f: Func, s: Renaming, done: set<Block>, b: Block, j: nat) {
    forall id :: id in s <==> f.IsPromotedLoad(id) && (f.pos[id].0 in done || (f.pos[id].0 == b && f.pos[id].1 < j))
  }

  function Top(stacks: map<Slot, seq<Value>>, a: Slot): Value {
    if a in stacks && |stacks[a]| > 0 then stacks[a][|stacks[a]| - 1] else Undef
  }

  function StackOf(stacks: map<Slot, seq<Value>>, a: Slot): seq<Value> {
    if a in stacks then stacks[a] else []
  }

  /** The tops of the stacks are the resolved definitions that reach position (b, j). */
  ghost predicate StacksAt(f: Func, s: Renaming, stacks: map<Slot, seq<Value>>, b: Block, j: nat)
    requires f.HasTree() && b in f.t && j <= |f.body[b]|
  {
    forall a {:trigger f.Reach(b, j, a)} {:trigger Top(stacks, a)} :: a in f.prom ==>
      SettledValue(f, s, f.Reach(b, j, a)) && Top(stacks, a) == Res(s, f.Reach(b, j, a))
  }

  lemma ResFinal(f: Func, s: Renaming, v: Value)
    requires f.HasTree() && PartlyResolved(f, s) && SettledValue(f, s, v)
    ensures Final(f, Res(s, v))
  {
  }

  /** A larger renaming resolves settled values the same way. */
  lemma ResGrows(f: Func, s: Renaming, s': Renaming, v: Value)
    requires f.HasTree() && PartlyResolved(f, s) && PartlyResolved(f, s') && s.Keys <= s'.Keys
    requires forall id :: id in s ==> s'[id] == s[id]
    requires SettledValue(f, s, v)
    ensures SettledValue(f, s', v) && Res(s', v) == Res(s, v)
  {
  }

  ghost predicate Grows(s: Renaming, s': Renaming) {
    s.Keys <= s'.Keys && forall id :: id in s ==> s'[id] == s[id]
  }

  lemma StacksGrow(f: Func, s: Renaming, s': Renaming, stacks: map<Slot, seq<Value>>, stacks': map<Slot, seq<Value>>,
                   b: Block, j: nat)
    requires f.HasTree() && b in f.t && j <= |f.body[b]| && PartlyResolved(f, s) && PartlyResolved(f, s')
    requires Grows(s, s')
    requires StacksAt(f, s, stacks, b, j) && forall a :: StackOf(stacks', a) == StackOf(stacks, a)
    ensures StacksAt(f, s', stacks', b, j)
  {
    forall a | a in f.prom
      ensures SettledValue(f, s', f.Reach(b, j, a)) && Top(stacks', a) == Res(s', f.Reach(b, j, a))
    {
      ResGrows(f, s, s', f.Reach(b, j, a));
      assert Top(stacks, a) == Res(s, f.Reach(b, j, a));
      assert StackOf(stacks', a) == StackOf(stacks, a);
    }
  }

  /** Loads available at a position of the block in progress have been replaced. */
  lemma AvailableSettled(f: Func, s: Renaming, done: set<Block>, b: Block, j: nat, v: Value)
    requires f.HasTree() && b in f.t && Covers(f, s, done, b, j)
    requires forall x :: x in Anc(f.t, f.post, b) && x != b ==> x in done
    requires f.Available(v, b, j)
    ensures SettledValue(f, s, v)
  {
  }

  // ----- one instruction -----

  lemma CoverSkip(f: Func, s: Renaming, done: set<Block>, b: Block, j: nat)
    requires f.HasTree() && f.Strict() && b in f.t && j < |f.body[b]| && Covers(f, s, done, b, j)
    requires f.body[b][j].Phi? || !(f.body[b][j].Load? && f.body[b][j].AccessesOneOf(f.prom))
    ensures Covers(f, s, done, b, j + 1)
  {
  }

  lemma CoverLoad(f: Func, s: Renaming, done: set<Block>, b: Block, j: nat, v: Value)
    requires f.HasTree() && f.Strict() && b in f.t && j < |f.body[b]| && b !in done && Covers(f, s, done, b, j)
    requires f.body[b][j].Load? && f.body[b][j].AccessesOneOf(f.prom)
    ensures f.IsPromotedLoad(f.body[b][j].id) && f.pos[f.body[b][j].id] == (b, j) && f.body[b][j].id !in s
    ensures Covers(f, s[f.body[b][j].id := v], done, b, j + 1)
  {
    hide Func.OperandsDefined, Func.VariablesAccessed, IsTree;
    assert f.At(b, j, f.body[b][j]);
  }

  /** Replacing the load at (b, j) by the top of its stack. */
  lemma ReplaceLoad(f: Func, s: Renaming, stacks: map<Slot, seq<Value>>, b: Block, j: nat)
    requires f.HasTree() && f.Strict() && b in f.t && j < |f.body[b]|
    requires PartlyResolved(f, s) && StacksAt(f, s, stacks, b, j)
    requires f.body[b][j].Load? && f.body[b][j].AccessesOneOf(f.prom) && f.body[b][j].id !in s
    ensures var i := f.body[b][j];
            var s' := s[i.id := Top(stacks, i.ptr.id)];
            PartlyResolved(f, s') && Grows(s, s')
  {
    var i := f.body[b][j];
    assert f.At(b, j, i);
    var v := Top(stacks, i.ptr.id);
    var s' := s[i.id := v];
    assert LoadReach(f, i.id) == f.Reach(b, j, i.ptr.id);
    ResFinal(f, s, LoadReach(f, i.id));
    forall id | id in s'
      ensures f.IsPromotedLoad(id) && SettledValue(f, s', LoadReach(f, id)) && s'[id] == Res(s', LoadReach(f, id))
      ensures Final(f, s'[id])
    {
    }
  }

  lemma StacksSkip(f: Func, s: Renaming, stacks: map<Slot, seq<Value>>, b: Block, j: nat)
    requires f.HasTree() && f.Strict() && b in f.t && j < |f.body[b]| && StacksAt(f, s, stacks, b, j)
    requires var i := f.body[b][j]; !i.Phi? && !(i.Store? && i.AccessesOneOf(f.prom))
    ensures StacksAt(f, s, stacks, b, j + 1)
  {
    var i := f.body[b][j];
    forall a | a in f.prom
      ensures SettledValue(f, s, f.Reach(b, j + 1, a)) && Top(stacks, a) == Res(s, f.Reach(b, j + 1, a))
    {
      assert f.Reach(b, j + 1, a) == f.Reach(b, j, a);
      assert Top(stacks, a) == Res(s, f.Reach(b, j, a));
    }
  }

  function Push(stacks: map<Slot, seq<Value>>, a: Slot, v: Value): (r: map<Slot, seq<Value>>)
    ensures forall c {:trigger StackOf(r, c)} :: StackOf(r, c) == StackOf(stacks, c) + if c == a then [v] else []
    ensures forall c {:trigger Top(r, c)} :: Top(r, c) == if c == a then v else Top(stacks, c)
  {
    stacks[a := StackOf(stacks, a) + [v]]
  }

  lemma StacksPush(f: Func, s: Renaming, stacks: map<Slot, seq<Value>>, b: Block, j: nat, a: Slot, v: Value, raw: Value)
    requires f.HasTree() && f.Strict() && b in f.t && j < |f.body[b]| && StacksAt(f, s, stacks, b, j)
    requires a in f.prom && SettledValue(f, s, raw) && v == Res(s, raw)
    requires var i := f.body[b][j];
             (i.Phi? && i.slot == a && raw == PhiResult(i.block, a)) || (i.Store? && i.Accesses(a) && raw == i.val)
    ensures StacksAt(f, s, Push(stacks, a, v), b, j + 1)
  {
    forall c | c in f.prom
      ensures SettledValue(f, s, f.Reach(b, j + 1, c)) &&
              Top(Push(stacks, a, v), c) == Res(s, f.Reach(b, j + 1, c))
    {
      if c != a {
        assert f.Reach(b, j + 1, c) == f.Reach(b, j, c);
        assert Top(stacks, c) == Res(s, f.Reach(b, j, c));
      }
    }
  }

  // ----- phi operands -----

  /** The values of the pairs for predecessor `p`, in order. */
  function ValuesFrom(pairs: seq<(Value, Block)>, p: Block): seq<Value> {
    if pairs == [] then []
    else ValuesFrom(pairs[..|pairs| - 1], p) + if pairs[|pairs| - 1].1 == p then [pairs[|pairs| - 1].0] else []
  }

  function Pairs(incoming: map<PhiKey, seq<(Value, Block)>>, k: PhiKey): seq<(Value, Block)> {
    if k in incoming then incoming[k] else []
  }

  lemma ValuesFromSnoc(pairs: seq<(Value, Block)>, v: Value, q: Block, p: Block)
    ensures ValuesFrom(pairs + [(v, q)], p) == ValuesFrom(pairs, p) + if q == p then [v] else []
  {
    assert (pairs + [(v, q)])[..|pairs|] == pairs;
  }

  lemma {:induction false} FirstOfValues(pairs: seq<(Value, Block)>, p: Block)
    requires ValuesFrom(pairs, p) != []
    ensures FromPred(pairs, p) == ValuesFrom(pairs, p)[0]
    decreases |pairs|
  {
    var front, last := pairs[..|pairs| - 1], pairs[|pairs| - 1];
    FromPredSnoc(front, last, p);
    if ValuesFrom(front, p) != [] {
      FirstOfValues(front, p);
    }
    assert front + [last] == pairs;
  }

  lemma {:induction false} FromPredSnoc(pairs: seq<(Value, Block)>, last: (Value, Block), p: Block)
    ensures FromPred(pairs + [last], p) ==
            if ValuesFrom(pairs, p) != [] then FromPred(pairs, p) else if last.1 == p then last.0 else Undef
    decreases |pairs|
  {
    if pairs == [] {
      assert pairs + [last] == [last];
    } else {
      FromPredSnoc(pairs[1..], last, p);
      assert (pairs + [last])[1..] == pairs[1..] + [last];
      ValuesFromCons(pairs, p);
    }
  }

  lemma {:induction false} ValuesFromCons(pairs: seq<(Value, Block)>, p: Block)
    requires pairs != []
    ensures ValuesFrom(pairs, p) == (if pairs[0].1 == p then [pairs[0].0] else []) + ValuesFrom(pairs[1..], p)
    decreases |pairs|
  {
    if |pairs| > 1 {
      ValuesFromCons(pairs[..|pairs| - 1], p);
      assert pairs[1..][..|pairs| - 2] == pairs[..|pairs| - 1][1..];
    }
  }

  /** The phi of `x` for `a` has exactly `n` operands from `p`, all of them the definition reaching the end of `p`. */
  ghost predicate FilledFrom(f: Func, s: Renaming, incoming: map<PhiKey, seq<(Value, Block)>>,
                             p: Block, x: Block, a: Slot, n: nat)
    requires f.HasTree() && p in f.t
  {
    var vs := ValuesFrom(Pairs(incoming, (x, a)), p);
    && |vs| == n
    && (n > 0 ==> SettledValue(f, s, f.ReachOut(p, a)))
    && (forall j :: 0 <= j < n ==> vs[j] == Res(s, f.ReachOut(p, a)))
  }

  /** How many operands phi (x, a) has from `p` when `b` has filled its first `i` successors and, in the next one, the
      variables in `filled`. */
  ghost function Expected(f: Func, done: set<Block>, b: Block, i: nat, filled: set<Slot>, p: Block, x: Block,
                          a: Slot): nat
    requires b < |f.g.succs| && i <= |f.g.succs[b]|
  {
    if p >= |f.g.succs| then 0
    else if p in done then multiset(f.g.succs[p])[x]
    else if p == b then
      multiset(f.g.succs[b][..i])[x] + if i < |f.g.succs[b]| && x == f.g.succs[b][i] && a in filled then 1 else 0
    else 0
  }

  ghost predicate Filled(f: Func, s: Renaming, incoming: map<PhiKey, seq<(Value, Block)>>, done: set<Block>,
                         b: Block, i: nat, filled: set<Slot>)
    requires f.HasTree() && b < |f.g.succs| && i <= |f.g.succs[b]|
  {
    forall p: Block, x: Block, a {:trigger Expected(f, done, b, i, filled, p, x, a)} :: p in f.t && f.HasPhi(x, a) ==>
      FilledFrom(f, s, incoming, p, x, a, Expected(f, done, b, i, filled, p, x, a))
  }

  ghost predicate PairsFinal(f: Func, incoming: map<PhiKey, seq<(Value, Block)>>) {
    forall k, j :: k in incoming && 0 <= j < |incoming[k]| ==>
      Final(f, incoming[k][j].0) && NotVariable(f, incoming[k][j].0)
  }

  lemma FilledGrows(f: Func, s: Renaming, s': Renaming, incoming: map<PhiKey, seq<(Value, Block)>>, done: set<Block>,
                    b: Block, i: nat, filled: set<Slot>)
    requires f.HasTree() && b < |f.g.succs| && i <= |f.g.succs[b]|
    requires PartlyResolved(f, s) && PartlyResolved(f, s') && Grows(s, s') && Filled(f, s, incoming, done, b, i, filled)
    ensures Filled(f, s', incoming, done, b, i, filled)
  {
    forall p: Block, x: Block, a | p in f.t && f.HasPhi(x, a)
      ensures FilledFrom(f, s', incoming, p, x, a, Expected(f, done, b, i, filled, p, x, a))
    {
      if SettledValue(f, s, f.ReachOut(p, a)) {
        ResGrows(f, s, s', f.ReachOut(p, a));
      }
    }
  }

  lemma FillKey(f: Func, s: Renaming, incoming: map<PhiKey, seq<(Value, Block)>>, done: set<Block>,
                b: Block, i: nat, filled: set<Slot>, a: Slot, v: Value, p: Block)
    requires f.HasTree() && b in f.t && p in f.t && b !in done && i < |f.g.succs[b]| && a !in filled
    requires var x := f.g.succs[b][i]; FilledFrom(f, s, incoming, p, x, a, Expected(f, done, b, i, filled, p, x, a))
    requires SettledValue(f, s, f.ReachOut(b, a)) && v == Res(s, f.ReachOut(b, a))
    ensures var x := f.g.succs[b][i];
            FilledFrom(f, s, incoming[(x, a) := Pairs(incoming, (x, a)) + [(v, b)]], p, x, a,
                       Expected(f, done, b, i, filled + {a}, p, x, a))
  {
    hide ValuesFrom, Func.ReachOut;
    ValuesFromSnoc(Pairs(incoming, (f.g.succs[b][i], a)), v, b, p);
  }

  lemma FillElsewhere(f: Func, s: Renaming, incoming: map<PhiKey, seq<(Value, Block)>>,
                      incoming': map<PhiKey, seq<(Value, Block)>>, done: set<Block>, b: Block, i: nat,
                      filled: set<Slot>, a: Slot, p: Block, x: Block, c: Slot)
    requires f.HasTree() && p in f.t && b < |f.g.succs| && i < |f.g.succs[b]|
    requires (x, c) != (f.g.succs[b][i], a) && Pairs(incoming', (x, c)) == Pairs(incoming, (x, c))
    requires FilledFrom(f, s, incoming, p, x, c, Expected(f, done, b, i, filled, p, x, c))
    ensures FilledFrom(f, s, incoming', p, x, c, Expected(f, done, b, i, filled + {a}, p, x, c))
  {
    hide ValuesFrom;
    assert Expected(f, done, b, i, filled + {a}, p, x, c) == Expected(f, done, b, i, filled, p, x, c);
    var vs := ValuesFrom(Pairs(incoming, (x, c)), p);
    assert ValuesFrom(Pairs(incoming', (x, c)), p) == vs;
  }

  /** Giving phi (x, a) of the current successor its operand from `b`. */
  lemma FillOne(f: Func, s: Renaming, incoming: map<PhiKey, seq<(Value, Block)>>, done: set<Block>,
                b: Block, i: nat, filled: set<Slot>, a: Slot, v: Value)
    requires f.HasTree() && b in f.t && b !in done && i < |f.g.succs[b]| && a !in filled
    requires Filled(f, s, incoming, done, b, i, filled)
    requires SettledValue(f, s, f.ReachOut(b, a)) && v == Res(s, f.ReachOut(b, a))
    ensures var k := (f.g.succs[b][i], a);
            Filled(f, s, incoming[k := Pairs(incoming, k) + [(v, b)]], done, b, i, filled + {a})
  {
    hide FilledFrom, Expected, ValuesFrom;
    var k := (f.g.succs[b][i], a);
    var incoming' := incoming[k := Pairs(incoming, k) + [(v, b)]];
    forall p: Block, x: Block, c: Slot | p in f.t && f.HasPhi(x, c)
      ensures FilledFrom(f, s, incoming', p, x, c, Expected(f, done, b, i, filled + {a}, p, x, c))
    {
      assert FilledFrom(f, s, incoming, p, x, c, Expected(f, done, b, i, filled, p, x, c));
      if (x, c) == k {
        FillKey(f, s, incoming, done, b, i, filled, a, v, p);
      } else {
        FillElsewhere(f, s, incoming, incoming', done, b, i, filled, a, p, x, c);
      }
    }
  }

  /** Moving on to the next successor once all its phis are filled. */
  lemma FillNext(f: Func, s: Renaming, incoming: map<PhiKey, seq<(Value, Block)>>, done: set<Block>,
                 b: Block, i: nat, filled: set<Slot>)
    requires f.HasTree() && b in f.t && i < |f.g.succs[b]| && Filled(f, s, incoming, done, b, i, filled)
    requires forall a :: f.HasPhi(f.g.succs[b][i], a) ==> a in filled
    ensures Filled(f, s, incoming, done, b, i + 1, {})
  {
    assert f.g.succs[b][..i + 1] == f.g.succs[b][..i] + [f.g.succs[b][i]];
    forall p: Block, x: Block, a | p in f.t && f.HasPhi(x, a)
      ensures FilledFrom(f, s, incoming, p, x, a, Expected(f, done, b, i + 1, {}, p, x, a))
    {
      assert Expected(f, done, b, i + 1, {}, p, x, a) == Expected(f, done, b, i, filled, p, x, a);
    }
  }

  /** A block whose successors are all filled is finished; any other block may take its place. */
  lemma FillDone(f: Func, s: Renaming, incoming: map<PhiKey, seq<(Value, Block)>>, done: set<Block>, b: Block, c: Block)
    requires f.HasTree() && b in f.t && c in f.t && Filled(f, s, incoming, done, b, |f.g.succs[b]|, {})
    ensures Filled(f, s, incoming, done + {b}, c, 0, {})
  {
    assert f.g.succs[b][..|f.g.succs[b]|] == f.g.succs[b];
    forall p: Block, x: Block, a | p in f.t && f.HasPhi(x, a)
      ensures FilledFrom(f, s, incoming, p, x, a, Expected(f, done + {b}, c, 0, {}, p, x, a))
    {
      assert Expected(f, done + {b}, c, 0, {}, p, x, a) == Expected(f, done, b, |f.g.succs[b]|, {}, p, x, a);
    }
  }

  lemma FillOther(f: Func, s: Renaming, incoming: map<PhiKey, seq<(Value, Block)>>, done: set<Block>, b: Block,
                  c: Block)
    requires f.HasTree() && b in f.t && c in f.t && Filled(f, s, incoming, done, b, 0, {})
    ensures Filled(f, s, incoming, done, c, 0, {})
  {
    forall p: Block, x: Block, a | p in f.t && f.HasPhi(x, a)
      ensures FilledFrom(f, s, incoming, p, x, a, Expected(f, done, c, 0, {}, p, x, a))
    {
      assert Expected(f, done, c, 0, {}, p, x, a) == Expected(f, done, b, 0, {}, p, x, a);
    }
  }

  /** Operands already given to phis are untouched when another load is replaced. */
  lemma PairsUntouched(f: Func, incoming: map<PhiKey, seq<(Value, Block)>>, id: nat, v: Value)
    requires PairsFinal(f, incoming) && f.IsPromotedLoad(id)
    ensures (map k | k in incoming :: RewritePairs(map[id := v], incoming[k])) == incoming
  {
    forall k | k in incoming
      ensures RewritePairs(map[id := v], incoming[k]) == incoming[k]
    {
      forall j | 0 <= j < |incoming[k]|
        ensures RewritePairs(map[id := v], incoming[k])[j] == incoming[k][j]
      {
        assert Final(f, incoming[k][j].0);
      }
    }
  }
}
