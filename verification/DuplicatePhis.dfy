/** A phi with the operands of another one of its block is equal to it. */
module DuplicatePhis {
  import opened Graphs
  import opened SsaRun

  // ----- pairs that are equal wherever the first is at hand -----

  /** `x` is equal to `o` wherever it is at hand. */
  ghost predicate EqualAt(g: Cfg, body: Body, x: nat, o: Operand, b: Block, k: nat, s: State) {
    Available(g, body, b, k, x) ==> Read(s, Ref(x)) == Read(s, o)
  }

  /** On every path. */
  ghost predicate EqualOnPaths(f: Machine, g: Cfg, body: Body, x: nat, o: Operand, start: map<nat, int>)
    requires |body| == g.Size()
  {
    forall path: seq<Block>, b: Block, k: nat {:trigger EqualAlong(f, g, body, x, o, start, path, b, k)} ::
      g.PathTo(path, b) && k <= |body[b]| ==> EqualAlong(f, g, body, x, o, start, path, b, k)
  }

  ghost predicate EqualAlong(f: Machine, g: Cfg, body: Body, x: nat, o: Operand, start: map<nat, int>,
                             path: seq<Block>, b: Block, k: nat)
    requires |body| == g.Size() && g.PathTo(path, b) && k <= |body[b]|
  {
    PathWalks(g, body, path, b);
    EqualAt(g, body, x, o, b, k, RunTo(f, body, start, path, k))
  }

  /** Replacements may be found in any way: if each is equal to what it replaces, all of them together keep every
      run. */
  lemma AllTogether(f: Machine, g: Cfg, body: Body, sub: Subst, start: map<nat, int>, path: seq<Block>, b: Block)
    requires Strict(g, body) && |body| == g.Size() && g.PathTo(path, b)
    requires forall x :: x in sub ==> EqualOnPaths(f, g, body, x, sub[x], start)
    ensures TraceKept(f, body, Rewritten(body, sub), start, path)
  {
    hide Strict, Run, RunTo, Available;
    forall path: seq<Block>, b: Block, k: nat {:trigger SameAlong(f, g, body, sub, start, path, b, k)} |
      g.PathTo(path, b) && k <= |body[b]|
      ensures SameAlong(f, g, body, sub, start, path, b, k)
    {
      PathWalks(g, body, path, b);
      forall x | x in sub && Available(g, body, b, k, x)
        ensures Read(RunTo(f, body, start, path, k), Ref(x)) == Read(RunTo(f, body, start, path, k), sub[x])
      {
        assert EqualAlong(f, g, body, x, sub[x], start, path, b, k);
      }
    }
    RewrittenRun(f, g, body, sub, start, path, b);
  }

  // ----- phis with the same operands -----

  predicate SamePhi(i: Ins, j: Ins) {
    i.Phi? && j.Phi? && i.incoming == j.incoming
  }

  /** The first phi of the block with the operands of the `k`-th that has not been replaced before. */
  predicate FirstSame(code: seq<Ins>, before: Subst, k: nat, j: nat) {
    j <= k < |code| && SamePhi(code[k], code[j]) && code[j].id !in before &&
    forall i :: 0 <= i < j ==> !(SamePhi(code[k], code[i]) && code[i].id !in before)
  }

  ghost predicate DistinctIds(code: seq<Ins>) {
    forall i, j :: 0 <= i < j < |code| ==> code[i].id != code[j].id
  }

  /** One of the first `n` instructions, with the id `x`, comes after another phi with its operands. */
  ghost predicate Duplicates(code: seq<Ins>, before: Subst, x: nat, n: nat)
    requires n <= |code|
  {
    exists k: nat, j: nat :: j < k < n && code[k].id == x && FirstSame(code, before, k, j)
  }

  /** The first `n` instructions: exactly the phis that come after another with their operands are replaced, by the
      first of these. */
  ghost predicate Deduplicated(code: seq<Ins>, before: Subst, replace: Subst, n: nat) {
    && n <= |code|
    && (forall x :: x in before ==> x in replace && replace[x] == before[x])
    && (forall x :: x in replace && x !in before ==> Duplicates(code, before, x, n))
    && (forall k: nat, j: nat {:trigger FirstSame(code, before, k, j)} ::
          k < n && code[k].id !in before && FirstSame(code, before, k, j) ==>
          if j < k then code[k].id in replace && replace[code[k].id] == Ref(code[j].id) else code[k].id !in replace)
  }

  method EliminateDuplicatePhis(code: seq<Ins>, before: Subst) returns (replace: Subst)
    requires DistinctIds(code)
    ensures Deduplicated(code, before, replace, |code|) && OneOfEach(code, replace)
  {
    hide DistinctIds, OneOfEach;
    replace := before;
    for i := 0 to |code|
      invariant Deduplicated(code, before, replace, i)
    {
      ghost var old' := replace;
      if !code[i].Phi? || code[i].id in replace {
        SkipOne(code, before, replace, i);
        continue;
      }
      var j := 0;
      while j < i && !(SamePhi(code[i], code[j]) && code[j].id !in replace)
        invariant j <= i && replace == old'
        invariant forall l :: 0 <= l < j ==> !(SamePhi(code[i], code[l]) && code[l].id !in replace)
      {
        j := j + 1;
      }
      FoundFirst(code, before, replace, i, j);
      if j < i {
        replace := replace[code[i].id := Ref(code[j].id)];
      }
    }
    OnlyOneKept(code, before, replace);
  }

  /** Of two phis with the same operands at most one is kept. */
  ghost predicate OneOfEach(code: seq<Ins>, replace: Subst) {
    forall j, k :: 0 <= j < k < |code| && code[j].Phi? && code[k].Phi? && code[j].incoming == code[k].incoming ==>
      code[j].id in replace || code[k].id in replace
  }

  lemma OnlyOneKept(code: seq<Ins>, before: Subst, replace: Subst)
    requires Deduplicated(code, before, replace, |code|)
    ensures OneOfEach(code, replace)
  {
    hide FirstSame, Duplicates;
    forall j, k | 0 <= j < k < |code| && code[j].Phi? && code[k].Phi? && code[j].incoming == code[k].incoming &&
                  code[j].id !in replace
      ensures code[k].id in replace
    {
      if code[k].id !in replace {
        var m := LeastSame(code, before, k);
        FirstOfKind(code, before, j, k, m);
      }
    }
  }

  lemma FirstOfKind(code: seq<Ins>, before: Subst, j: nat, k: nat, m: nat)
    requires j < k < |code| && SamePhi(code[k], code[j]) && code[j].id !in before
    requires m <= k && FirstSame(code, before, m, m) && SamePhi(code[k], code[m])
    ensures m < k && FirstSame(code, before, k, m)
  {
  }

  lemma SkipOne(code: seq<Ins>, before: Subst, replace: Subst, i: nat)
    requires DistinctIds(code) && i < |code| && Deduplicated(code, before, replace, i)
    requires !code[i].Phi? || code[i].id in replace
    ensures Deduplicated(code, before, replace, i + 1)
  {
    forall x | x in replace && x !in before
      ensures Duplicates(code, before, x, i + 1)
    {
      StillDuplicates(code, before, x, i);
    }
  }

  lemma StillDuplicates(code: seq<Ins>, before: Subst, x: nat, n: nat)
    requires n < |code| && Duplicates(code, before, x, n)
    ensures Duplicates(code, before, x, n + 1)
  {
    hide FirstSame;
    var k: nat, j: nat :| j < k < n && code[k].id == x && FirstSame(code, before, k, j);
  }

  /** The first phi that has not been replaced is the first that had not been before: the first of its kind is never
      replaced. */
  lemma FoundFirst(code: seq<Ins>, before: Subst, replace: Subst, i: nat, j: nat)
    requires DistinctIds(code) && i < |code| && Deduplicated(code, before, replace, i) && code[i].Phi?
    requires code[i].id !in replace && j <= i
    requires forall l :: 0 <= l < j ==> !(SamePhi(code[i], code[l]) && code[l].id !in replace)
    requires j < i ==> SamePhi(code[i], code[j]) && code[j].id !in replace
    ensures Deduplicated(code, before, if j < i then replace[code[i].id := Ref(code[j].id)] else replace, i + 1)
  {
    hide FirstSame, SamePhi, Duplicates;
    FirstIs(code, before, replace, i, j);
    var replace' := if j < i then replace[code[i].id := Ref(code[j].id)] else replace;
    forall x | x in replace' && x !in before
      ensures Duplicates(code, before, x, i + 1)
    {
      if x in replace {
        StillDuplicates(code, before, x, i);
      } else {
        ItDuplicates(code, before, i, j);
      }
    }
    forall k: nat, l: nat {:trigger FirstSame(code, before, k, l)} |
      k < i + 1 && code[k].id !in before && FirstSame(code, before, k, l)
      ensures if l < k then code[k].id in replace' && replace'[code[k].id] == Ref(code[l].id)
              else code[k].id !in replace'
    {
      if k == i {
        OneFirst(code, before, i, j, l);
      }
    }
  }

  lemma ItDuplicates(code: seq<Ins>, before: Subst, i: nat, j: nat)
    requires j < i < |code| && FirstSame(code, before, i, j)
    ensures Duplicates(code, before, code[i].id, i + 1)
  {
    hide FirstSame;
  }

  lemma OneFirst(code: seq<Ins>, before: Subst, k: nat, j: nat, l: nat)
    requires FirstSame(code, before, k, j) && FirstSame(code, before, k, l)
    ensures j == l
  {
  }

  lemma FirstIs(code: seq<Ins>, before: Subst, replace: Subst, i: nat, j: nat)
    requires DistinctIds(code) && i < |code| && Deduplicated(code, before, replace, i) && code[i].Phi?
    requires code[i].id !in replace && j <= i
    requires forall l :: 0 <= l < j ==> !(SamePhi(code[i], code[l]) && code[l].id !in replace)
    requires j < i ==> SamePhi(code[i], code[j]) && code[j].id !in replace
    ensures FirstSame(code, before, i, j)
  {
    if l :| 0 <= l < j && SamePhi(code[i], code[l]) && code[l].id !in before {
      var m := LeastSame(code, before, l);
      assert FirstSame(code, before, m, m);
      assert SamePhi(code[i], code[m]);
    }
  }

  /** The first of the phis with these operands. */
  lemma {:induction false} LeastSame(code: seq<Ins>, before: Subst, k: nat) returns (m: nat)
    requires k < |code| && code[k].Phi? && code[k].id !in before
    ensures m <= k && FirstSame(code, before, m, m) && SamePhi(code[k], code[m])
  {
    if i :| 0 <= i < k && SamePhi(code[k], code[i]) && code[i].id !in before {
      m := LeastSame(code, before, i);
    } else {
      m := k;
    }
  }

  // ----- such phis are equal -----

  lemma DuplicateStep(f: Machine, g: Cfg, body: Body, b: Block, k: nat, j: nat, d: Block, l: nat, s: State)
    requires UniqueSites(body) && b < |body| && k < |body[b]| && j < |body[b]| && SamePhi(body[b][k], body[b][j])
    requires d < |body| && l < |body[d]| && EqualAt(g, body, body[b][k].id, Ref(body[b][j].id), d, l, s)
    ensures EqualAt(g, body, body[b][k].id, Ref(body[b][j].id), d, l + 1, Exec(f, body[d][l], s))
  {
    hide UniqueSites, Available, Exec;
    var x, y, i := body[b][k].id, body[b][j].id, body[d][l];
    if Available(g, body, d, l + 1, x) {
      AvailableStep(g, body, d, l, x);
      if i.Ins? && i.id == x {
        OneSite(body, b, k, d, l);
      }
      if i.Ins? && i.id == y {
        OneSite(body, b, j, d, l);
      }
      ExecKeeps(f, i, s, x);
      ExecKeeps(f, i, s, y);
    }
  }

  lemma DuplicateEdge(f: Machine, g: Cfg, body: Body, b: Block, k: nat, j: nat, start: map<nat, int>, path: seq<Block>,
                      d: Block)
    requires Strict(g, body) && |body| == g.Size() && b < |body| && k < |body[b]| && j < |body[b]|
    requires SamePhi(body[b][k], body[b][j])
    requires g.PathTo(path, d) && |path| > 1 && PathIn(body, path) && PathIn(body, path[..|path| - 1])
    requires var q := path[|path| - 2];
             q < |body| &&
             EqualAt(g, body, body[b][k].id, Ref(body[b][j].id), q, |body[q]|, Run(f, body, start, path[..|path| - 1]))
    ensures EqualAt(g, body, body[b][k].id, Ref(body[b][j].id), d, 0, Enter(f, body, start, path))
  {
    hide Strict, UniqueSites, Cfg.PathTo, Available, Enter, Run, IsPhiOf;
    StrictShape(g, body);
    PathWalks(g, body, path, d);
    var x, y, q := body[b][k].id, body[b][j].id, path[|path| - 2];
    if Available(g, body, d, 0, x) {
      if d == b {
        EnterPhi(f, body, start, path, k);
        EnterPhi(f, body, start, path, j);
      } else {
        NoPhiElsewhere(body, b, k, d);
        NoPhiElsewhere(body, b, j, d);
        AvailableEdge(g, body, q, d, x);
        EnterKeeps(f, body, start, path, x);
        EnterKeeps(f, body, start, path, y);
      }
    }
  }

  lemma NoPhiElsewhere(body: Body, b: Block, k: nat, d: Block)
    requires UniqueSites(body) && b < |body| && k < |body[b]| && d != b
    ensures !IsPhiOf(body, d, body[b][k].id)
  {
    assert DefinedAt(body, b, k, body[b][k].id);
  }

  lemma DuplicateStart(g: Cfg, body: Body, b: Block, k: nat, o: Operand, s: State)
    requires g.Valid() && 0 < |body| && UniqueSites(body) && b < |body| && k < |body[b]|
    requires forall i: nat :: i < |body[ENTRY]| ==> body[ENTRY][i].Ins?
    ensures EqualAt(g, body, body[b][k].id, o, ENTRY, 0, s)
  {
    hide Available, UniqueSites;
    assert DefinedAt(body, b, k, body[b][k].id);
    if Available(g, body, ENTRY, 0, body[b][k].id) {
      AvailableAtStart(g, body, body[b][k].id);
    }
  }

  /** On every path, two phis of one block with the same operands are equal. */
  lemma {:induction false} DuplicatesEqual(f: Machine, g: Cfg, body: Body, b: Block, k: nat, j: nat,
                                           start: map<nat, int>, path: seq<Block>, d: Block, l: nat)
    requires Strict(g, body) && |body| == g.Size() && b < |body| && k < |body[b]| && j < |body[b]|
    requires SamePhi(body[b][k], body[b][j]) && (forall i: nat :: i < |body[ENTRY]| ==> body[ENTRY][i].Ins?)
    requires g.PathTo(path, d) && l <= |body[d]|
    ensures PathIn(body, path) && Last(path) == d
    ensures EqualAt(g, body, body[b][k].id, Ref(body[b][j].id), d, l, RunTo(f, body, start, path, l))
    decreases |path|, l
  {
    hide Strict, SamePhi, EqualAt, Exec, RunTo, Enter, Run, UniqueSites;
    StrictShape(g, body);
    PathWalks(g, body, path, d);
    if l > 0 {
      DuplicatesEqual(f, g, body, b, k, j, start, path, d, l - 1);
      RunStep(f, body, start, path, l - 1);
      DuplicateStep(f, g, body, b, k, j, d, l - 1, RunTo(f, body, start, path, l - 1));
    } else {
      RunBegins(f, body, start, path);
      if |path| > 1 {
        var path0, q := path[..|path| - 1], path[|path| - 2];
        DuplicatesEqual(f, g, body, b, k, j, start, path0, q, |body[q]|);
        RunIsRunTo(f, body, start, path0);
        DuplicateEdge(f, g, body, b, k, j, start, path, d);
      } else {
        DuplicateStart(g, body, b, k, Ref(body[b][j].id), Enter(f, body, start, path));
      }
    }
  }

  lemma DuplicateOnPaths(f: Machine, g: Cfg, body: Body, b: Block, k: nat, j: nat, start: map<nat, int>)
    requires Strict(g, body) && |body| == g.Size() && b < |body| && k < |body[b]| && j < |body[b]|
    requires SamePhi(body[b][k], body[b][j]) && (forall i: nat :: i < |body[ENTRY]| ==> body[ENTRY][i].Ins?)
    ensures EqualOnPaths(f, g, body, body[b][k].id, Ref(body[b][j].id), start)
  {
    hide Strict, SamePhi, EqualAt, RunTo;
    forall path: seq<Block>, d: Block, l: nat
      {:trigger EqualAlong(f, g, body, body[b][k].id, Ref(body[b][j].id), start, path, d, l)} |
      g.PathTo(path, d) && l <= |body[d]|
      ensures EqualAlong(f, g, body, body[b][k].id, Ref(body[b][j].id), start, path, d, l)
    {
      DuplicatesEqual(f, g, body, b, k, j, start, path, d, l);
    }
  }

  /** All blocks of a function. */
  ghost predicate DeduplicatedBlock(body: Body, replace: Subst, b: Block)
    requires b < |body|
  {
    forall k: nat, j: nat {:trigger FirstSame(body[b], map[], k, j)} ::
      k < |body[b]| && FirstSame(body[b], map[], k, j) ==>
      if j < k then body[b][k].id in replace && replace[body[b][k].id] == Ref(body[b][j].id)
      else body[b][k].id !in replace
  }

  ghost predicate FromDuplicates(body: Body, x: nat, o: Operand) {
    exists b: Block, k: nat, j: nat ::
      b < |body| && k < |body[b]| && j < |body[b]| && SamePhi(body[b][k], body[b][j]) && body[b][k].id == x &&
      o == Ref(body[b][j].id)
  }

  method EliminateAllDuplicates(body: Body) returns (replace: Subst)
    requires UniqueSites(body)
    ensures forall b: Block :: b < |body| ==> DeduplicatedBlock(body, replace, b) && OneOfEach(body[b], replace)
    ensures forall x :: x in replace ==> FromDuplicates(body, x, replace[x])
  {
    hide UniqueSites, FromDuplicates, DeduplicatedBlock, Deduplicated, OneOfEach;
    replace := map[];
    for b := 0 to |body|
      invariant forall c: Block :: c < b ==> DeduplicatedBlock(body, replace, c) && OneOfEach(body[c], replace)
      invariant forall x :: x in replace ==> FromDuplicates(body, x, replace[x]) && InFirst(body, x, b)
    {
      var before := replace;
      SitesDistinct(body, b);
      replace := EliminateDuplicatePhis(body[b], before);
      OneBlockMore(body, before, replace, b);
      StillOneOfEach(body, before, replace, b);
    }
  }

  lemma StillOneOfEach(body: Body, before: Subst, replace: Subst, b: Block)
    requires b < |body| && Deduplicated(body[b], before, replace, |body[b]|)
    ensures forall c: Block :: c < |body| && OneOfEach(body[c], before) ==> OneOfEach(body[c], replace)
  {
    hide FirstSame, Duplicates;
  }

  /** One of the first `n` blocks defines `x`. */
  ghost predicate InFirst(body: Body, x: nat, n: nat) {
    exists c: Block, k: nat :: c < n && DefinedAt(body, c, k, x)
  }

  lemma SitesDistinct(body: Body, b: Block)
    requires UniqueSites(body) && b < |body|
    ensures DistinctIds(body[b])
  {
    forall i, j | 0 <= i < j < |body[b]|
      ensures body[b][i].id != body[b][j].id
    {
      if body[b][i].id == body[b][j].id {
        OneSite(body, b, i, b, j);
      }
    }
  }

  lemma OneBlockMore(body: Body, before: Subst, replace: Subst, b: Block)
    requires UniqueSites(body) && b < |body| && Deduplicated(body[b], before, replace, |body[b]|)
    requires forall c: Block :: c < b ==> DeduplicatedBlock(body, before, c)
    requires forall x :: x in before ==> FromDuplicates(body, x, before[x]) && InFirst(body, x, b)
    ensures forall c: Block :: c <= b ==> DeduplicatedBlock(body, replace, c)
    ensures forall x :: x in replace ==> FromDuplicates(body, x, replace[x]) && InFirst(body, x, b + 1)
  {
    hide UniqueSites, FromDuplicates, InFirst, FirstSame, DeduplicatedBlock;
    NoneBefore(body, before, b);
    forall x | x in replace
      ensures FromDuplicates(body, x, replace[x]) && InFirst(body, x, b + 1)
    {
      if x in before {
        InMore(body, x, b);
      } else {
        NewDuplicate(body, before, replace, b, x);
      }
    }
    forall c: Block | c <= b
      ensures DeduplicatedBlock(body, replace, c)
    {
      if c < b {
        EarlierBlock(body, before, replace, b, c);
      } else {
        ThisBlock(body, before, replace, b);
      }
    }
  }

  lemma InMore(body: Body, x: nat, n: nat)
    requires InFirst(body, x, n)
    ensures InFirst(body, x, n + 1)
  {
  }

  lemma NoneBefore(body: Body, before: Subst, b: Block)
    requires UniqueSites(body) && b < |body| && forall x :: x in before ==> InFirst(body, x, b)
    ensures forall k: nat :: k < |body[b]| ==> body[b][k].id !in before
  {
    forall k: nat | k < |body[b]|
      ensures body[b][k].id !in before
    {
      if body[b][k].id in before {
        var c: Block, j: nat :| c < b && DefinedAt(body, c, j, body[b][k].id);
        OneSite(body, b, k, c, j);
      }
    }
  }

  lemma NewDuplicate(body: Body, before: Subst, replace: Subst, b: Block, x: nat)
    requires UniqueSites(body) && b < |body| && Deduplicated(body[b], before, replace, |body[b]|)
    requires x in replace && x !in before
    ensures FromDuplicates(body, x, replace[x]) && InFirst(body, x, b + 1)
  {
    var k: nat, j: nat :| j < k < |body[b]| && body[b][k].id == x && FirstSame(body[b], before, k, j);
    assert DefinedAt(body, b, k, x);
  }

  lemma ThisBlock(body: Body, before: Subst, replace: Subst, b: Block)
    requires b < |body| && Deduplicated(body[b], before, replace, |body[b]|)
    requires forall k: nat :: k < |body[b]| ==> body[b][k].id !in before
    ensures DeduplicatedBlock(body, replace, b)
  {
    forall k: nat, j: nat {:trigger FirstSame(body[b], map[], k, j)} |
      k < |body[b]| && FirstSame(body[b], map[], k, j)
      ensures if j < k then body[b][k].id in replace && replace[body[b][k].id] == Ref(body[b][j].id)
              else body[b][k].id !in replace
    {
      assert FirstSame(body[b], before, k, j);
    }
  }

  lemma EarlierBlock(body: Body, before: Subst, replace: Subst, b: Block, c: Block)
    requires UniqueSites(body) && c < b < |body| && Deduplicated(body[b], before, replace, |body[b]|)
    requires DeduplicatedBlock(body, before, c)
    ensures DeduplicatedBlock(body, replace, c)
  {
    hide UniqueSites, FirstSame;
    forall k: nat | k < |body[c]|
      ensures body[c][k].id in replace <==> body[c][k].id in before
    {
      if body[c][k].id in replace && body[c][k].id !in before {
        var l: nat, j: nat :| j < l < |body[b]| && body[b][l].id == body[c][k].id && FirstSame(body[b], before, l, j);
        OneSite(body, b, l, c, k);
      }
    }
  }

  /** Replacing duplicate phis keeps every run. */
  lemma DuplicatesKeepRuns(f: Machine, g: Cfg, body: Body, replace: Subst, start: map<nat, int>, path: seq<Block>,
                           b: Block)
    requires Strict(g, body) && |body| == g.Size() && (forall i: nat :: i < |body[ENTRY]| ==> body[ENTRY][i].Ins?)
    requires (forall x :: x in replace ==> FromDuplicates(body, x, replace[x])) && g.PathTo(path, b)
    ensures TraceKept(f, body, Rewritten(body, replace), start, path)
  {
    hide Strict, SamePhi, EqualOnPaths, Cfg.PathTo;
    forall x | x in replace
      ensures EqualOnPaths(f, g, body, x, replace[x], start)
    {
      var c: Block, k: nat, j: nat :| c < |body| && k < |body[c]| && j < |body[c]| && SamePhi(body[c][k], body[c][j]) &&
        body[c][k].id == x && replace[x] == Ref(body[c][j].id);
      DuplicateOnPaths(f, g, body, c, k, j, start);
    }
    AllTogether(f, g, body, replace, start, path, b);
  }
}
