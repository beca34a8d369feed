/** Placing the parts of a frame one below the other. */
module FrameAllocation {
  import opened Graphs
  import opened LoongArch
  import opened StackIr
  import opened Frames

  /** Rounds up to a multiple of `a`. */
  function Align(x: nat, a: nat): (r: nat)
    requires a in {1, 4, 8, 16}
    ensures r % a == 0 && x <= r < x + a
  {
    assert a == 1 || a == 4 || a == 8 || a == 16;
    (x + (a - 1)) / a * a
  }

  /** Bitwise and, and complement, of the low `n` bits. */
  function AndBits(x: nat, y: nat, n: nat): nat {
    if n == 0 then 0 else (if x % 2 == 1 && y % 2 == 1 then 1 else 0) + 2 * AndBits(x / 2, y / 2, n - 1)
  }

  function NotBits(x: nat, n: nat): nat {
    if n == 0 then 0 else (if x % 2 == 1 then 0 else 1) + 2 * NotBits(x / 2, n - 1)
  }

  /** Rounding up as 32-bit words do it: add one less than the alignment, then clear the low bits. */
  function AlignWord(x: nat, a: nat): nat
    requires a > 0
  {
    AndBits((x + (a - 1)) % TWO_32, NotBits(a - 1, 32), 32)
  }

  lemma {:induction false} AndOnes(y: nat, n: nat)
    requires y < Power2(n)
    ensures AndBits(y, NotBits(0, n), n) == y
    decreases n
  {
    if n > 0 {
      AndOnes(y / 2, n - 1);
    }
  }

  /** Masking with the complement of 2^k - 1 takes the remainder away. */
  lemma {:induction false} MaskClears(y: nat, k: nat, n: nat)
    requires k <= n && y < Power2(n)
    ensures AndBits(y, NotBits(Power2(k) - 1, n), n) == y - y % Power2(k)
    decreases k
  {
    if k == 0 {
      AndOnes(y, n);
    } else {
      MaskClears(y / 2, k - 1, n - 1);
      HalfRemainder(y, Power2(k - 1));
      assert (Power2(k) - 1) / 2 == Power2(k - 1) - 1;
    }
  }

  lemma HalfRemainder(y: nat, m: nat)
    requires m > 0
    ensures y % (2 * m) == 2 * (y / 2 % m) + y % 2
  {
    var q, r := y / 2 / m, y / 2 % m;
    assert y / 2 == q * m + r;
    assert y == q * (2 * m) + (2 * r + y % 2);
    RemainderIs(y, 2 * m, q, 2 * r + y % 2);
  }

  lemma RemainderIs(y: nat, m: nat, q: nat, r: nat)
    requires m > 0 && y == q * m + r && r < m
    ensures y % m == r && y / m * m == y - r
  {
    var q', r' := y / m, y % m;
    assert y == q' * m + r';
    assert (q - q') * m == r' - r;
    if q < q' {
      MulAtLeast(q' - q, m);
    } else if q > q' {
      MulAtLeast(q - q', m);
    }
  }

  lemma MulAtLeast(d: int, m: nat)
    requires d >= 1
    ensures d * m >= m
  {
    assert d * m == m + (d - 1) * m;
  }

  /** The word operation rounds up to the next multiple, as long as nothing wraps around. */
  lemma AlignWordRounds(x: nat, a: nat)
    requires a in {1, 4, 8, 16} && x + a <= TWO_32
    ensures AlignWord(x, a) == Align(x, a)
  {
    hide AndBits, NotBits, Power2;
    Powers();
    if a == 1 {
      MaskRoundsUp(x, 0);
    } else if a == 4 {
      MaskRoundsUp(x, 2);
    } else if a == 8 {
      MaskRoundsUp(x, 3);
    } else {
      MaskRoundsUp(x, 4);
    }
  }

  lemma MaskRoundsUp(x: nat, k: nat)
    requires k <= 32 && x + Power2(k) <= TWO_32 && Power2(32) == TWO_32
    ensures var a := Power2(k); AndBits((x + (a - 1)) % TWO_32, NotBits(a - 1, 32), 32) == (x + (a - 1)) / a * a
  {
    hide AndBits, NotBits, Power2;
    var y := x + (Power2(k) - 1);
    assert y % TWO_32 == y;
    MaskClears(y, k, 32);
    RemainderIs(y, Power2(k), y / Power2(k), y % Power2(k));
  }

  lemma Powers()
    ensures Power2(0) == 1 && Power2(2) == 4 && Power2(3) == 8 && Power2(4) == 16 && Power2(32) == TWO_32
  {
    assert Power2(8) == 256;
    assert Power2(16) == 0x1_0000;
    assert Power2(24) == 0x100_0000;
  }

  // ----- the size of a frame -----

  function SlotSize(f: Fun, id: Id): (n: nat)
    ensures n in {1, 4, 8}
    ensures TypeAt(f, id).Scalar() ==> n == TypeAt(f, id).Size()
  {
    if TypeAt(f, id).Scalar() then TypeAt(f, id).Size() else 8
  }

  function WithSlot(f: Fun, off: nat, id: Id): (r: nat)
    ensures off + SlotSize(f, id) <= r && r % SlotSize(f, id) == 0
  {
    Align(off + SlotSize(f, id), SlotSize(f, id))
  }

  function EndOfArgs(f: Fun, k: nat): nat
    requires k <= |f.args|
  {
    if k == 0 then PROLOGUE_OFFSET_BASE else WithSlot(f, EndOfArgs(f, k - 1), f.args[k - 1])
  }

  function EndOfPhis(f: Fun, off: nat, phis: seq<Phi>, k: nat): nat
    requires k <= |phis|
  {
    if k == 0 then off
    else WithSlot(f, WithSlot(f, EndOfPhis(f, off, phis, k - 1), phis[k - 1].id), phis[k - 1].id)
  }

  function EndOfIns(f: Fun, off: nat, i: Ins): nat {
    if i.Store? then off
    else if i.Alloca? then WithSlot(f, off, i.id) + i.elem.Size()
    else WithSlot(f, off, i.id)
  }

  function EndOfBody(f: Fun, off: nat, body: seq<Ins>, k: nat): nat
    requires k <= |body|
  {
    if k == 0 then off else EndOfIns(f, EndOfBody(f, off, body, k - 1), body[k - 1])
  }

  function EndOfBlocks(f: Fun, k: nat): nat
    requires k <= |f.blocks|
  {
    if k == 0 then EndOfArgs(f, |f.args|)
    else
      var blk := f.blocks[k - 1];
      EndOfBody(f, EndOfPhis(f, EndOfBlocks(f, k - 1), blk.phis, |blk.phis|), blk.body, |blk.body|)
  }

  function FrameSize(f: Fun): nat {
    Align(EndOfBlocks(f, |f.blocks|), PROLOGUE_ALIGN)
  }

  lemma {:induction false} ArgsGrow(f: Fun, j: nat, k: nat)
    requires j <= k <= |f.args|
    ensures EndOfArgs(f, j) <= EndOfArgs(f, k)
  {
    if j < k {
      ArgsGrow(f, j, k - 1);
    }
  }

  lemma {:induction false} PhisGrow(f: Fun, off: nat, phis: seq<Phi>, j: nat, k: nat)
    requires j <= k <= |phis|
    ensures EndOfPhis(f, off, phis, j) <= EndOfPhis(f, off, phis, k)
  {
    hide WithSlot;
    if j < k {
      PhisGrow(f, off, phis, j, k - 1);
    }
  }

  lemma {:induction false} BodyGrows(f: Fun, off: nat, body: seq<Ins>, j: nat, k: nat)
    requires j <= k <= |body|
    ensures EndOfBody(f, off, body, j) <= EndOfBody(f, off, body, k)
  {
    hide WithSlot;
    if j < k {
      BodyGrows(f, off, body, j, k - 1);
    }
  }

  lemma {:induction false} BlocksGrow(f: Fun, j: nat, k: nat)
    requires j <= k <= |f.blocks|
    ensures EndOfBlocks(f, j) <= EndOfBlocks(f, k)
  {
    hide WithSlot, EndOfIns;
    if j < k {
      BlocksGrow(f, j, k - 1);
      var blk := f.blocks[k - 1];
      PhisGrow(f, EndOfBlocks(f, k - 1), blk.phis, 0, |blk.phis|);
      BodyGrows(f, EndOfPhis(f, EndOfBlocks(f, k - 1), blk.phis, |blk.phis|), blk.body, 0, |blk.body|);
    }
  }

  // ----- definition sites -----

  /** Where a value is defined. */
  datatype Site = ArgSite(i: nat) | PhiSite(b: Block, i: nat) | InsSite(b: Block, i: nat)

  ghost predicate HasId(f: Fun, site: Site, id: Id) {
    match site
    case ArgSite(i) => i < |f.args| && f.args[i] == id
    case PhiSite(b, i) => b < |f.blocks| && i < |f.blocks[b].phis| && f.blocks[b].phis[i].id == id
    case InsSite(b, i) => b < |f.blocks| && i < |f.blocks[b].body| && ResultOf(f.blocks[b].body[i], id)
  }

  /** Every value is defined once. */
  ghost predicate UniqueIds(f: Fun) {
    forall x: Site, y: Site, id {:trigger HasId(f, x, id), HasId(f, y, id)} ::
      HasId(f, x, id) && HasId(f, y, id) ==> x == y
  }

  /** The values defined at the sites seen so far are the ones placed. */
  ghost predicate Known(f: Fun, seen: set<Site>, done: set<Owner>) {
    forall o :: o in done ==> exists site :: site in seen && HasId(f, site, o.id)
  }

  lemma FreshId(f: Fun, seen: set<Site>, done: set<Owner>, site: Site, id: Id)
    requires UniqueIds(f) && Known(f, seen, done) && site !in seen && HasId(f, site, id)
    ensures forall o :: o in done ==> o.id != id
  {
    forall o | o in done
      ensures o.id != id
    {
      var y :| y in seen && HasId(f, y, o.id);
    }
  }

  // ----- packing -----

  /** The parts placed so far lie apart from each other above `off`. */
  ghost predicate Packed(f: Fun, fr: Frame, done: set<Owner>) {
    && (forall o :: o in done ==> Inside(f, fr, o))
    && (forall o, o' :: o in done && o' in done && o != o' ==> NoOverlap(f, fr, o, o'))
  }

  /** One more part at the lower end. */
  lemma PackOne(f: Fun, fr: Frame, fr': Frame, done: set<Owner>, o: Owner)
    requires Packed(f, fr, done) && o !in done && Inside(f, fr', o) && fr.size <= fr'.size
    requires forall x :: x in done ==> Start(f, fr', x) == Start(f, fr, x) && Located(fr', x)
    requires Start(f, fr', o) + Length(f, o) <= 0 - fr.size
    ensures Packed(f, fr', done + {o})
  {
    forall x | x in done
      ensures Inside(f, fr', x) && NoOverlap(f, fr', x, o) && NoOverlap(f, fr', o, x)
    {
      assert Inside(f, fr, x);
    }
    forall x, y | x in done && y in done && x != y
      ensures NoOverlap(f, fr', x, y)
    {
      assert NoOverlap(f, fr, x, y);
    }
  }

  /** A value gets its slot. */
  lemma PackSlot(f: Fun, fr: Frame, done: set<Owner>, id: Id)
    requires Packed(f, fr, done) && (forall o :: o in done ==> o.id != id) && TypeAt(f, id).Scalar()
    requires fr.size >= PROLOGUE_OFFSET_BASE
    ensures var off := WithSlot(f, fr.size, id);
            Packed(f, fr.(offsets := fr.offsets[id := 0 - off], size := off), done + {Slot(id)})
  {
    hide Packed;
    var off: int := WithSlot(f, fr.size, id);
    var fr' := fr.(offsets := fr.offsets[id := 0 - off], size := off);
    NegatedMultiple(off, SlotSize(f, id));
    PlacedTables(f, fr, done);
    PackOne(f, fr, fr', done, Slot(id));
  }

  /** A phi gets its temporary. */
  lemma PackTemp(f: Fun, fr: Frame, done: set<Owner>, id: Id)
    requires Packed(f, fr, done) && Temp(id) !in done && TypeAt(f, id).Scalar()
    requires fr.size >= PROLOGUE_OFFSET_BASE && forall o :: o in done && o.Temp? ==> o.id != id
    ensures var off := WithSlot(f, fr.size, id);
            Packed(f, fr.(temps := fr.temps[id := 0 - off], size := off), done + {Temp(id)})
  {
    hide Packed;
    var off: int := WithSlot(f, fr.size, id);
    var fr' := fr.(temps := fr.temps[id := 0 - off], size := off);
    NegatedMultiple(off, SlotSize(f, id));
    PlacedTables(f, fr, done);
    PackOne(f, fr, fr', done, Temp(id));
  }

  lemma PlacedTables(f: Fun, fr: Frame, done: set<Owner>)
    requires Packed(f, fr, done)
    ensures forall o :: o in done ==> Located(fr, o)
  {
  }

  lemma NegatedMultiple(x: nat, n: nat)
    requires n in {1, 4, 8} && x % n == 0
    ensures (0 - x) % n == 0
  {
    assert n == 1 || n == 4 || n == 8;
  }

  /** An allocation gets its memory right below its slot. */
  lemma PackArea(f: Fun, fr: Frame, done: set<Owner>, id: Id)
    requires Packed(f, fr, done) && Slot(id) in done && Area(id) !in done && id in fr.offsets
    requires At(fr.offsets, id) == 0 - fr.size && fr.size >= PROLOGUE_OFFSET_BASE
    ensures Packed(f, fr.(size := fr.size + AreaSize(f, id)), done + {Area(id)})
  {
    hide Packed;
    PlacedTables(f, fr, done);
    PackOne(f, fr, fr.(size := fr.size + AreaSize(f, id)), done, Area(id));
  }

  lemma PackRounded(f: Fun, fr: Frame, done: set<Owner>, size: nat)
    requires Packed(f, fr, done) && PROLOGUE_OFFSET_BASE <= fr.size <= size && size % 16 == 0
    requires forall o :: IsOwner(f, o) ==> o in done
    ensures LaidOut(f, fr.(size := size))
  {
    hide IsOwner;
    var fr' := fr.(size := size);
    forall o | IsOwner(f, o)
      ensures Inside(f, fr', o)
    {
      assert Inside(f, fr, o);
    }
    forall o, o' | IsOwner(f, o) && IsOwner(f, o') && o != o'
      ensures NoOverlap(f, fr', o, o')
    {
      assert NoOverlap(f, fr, o, o');
    }
  }
}
