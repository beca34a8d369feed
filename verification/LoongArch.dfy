/** A byte-addressed machine with the LoongArch instructions that the stack code generator emits.

    Registers hold 64-bit words, read as signed numbers; addresses are read the same way. */
module LoongArch {

  const TWO_31 := 0x8000_0000
  const TWO_32 := 0x1_0000_0000
  const TWO_52 := 0x10_0000_0000_0000
  const TWO_63 := 0x8000_0000_0000_0000
  const TWO_64 := 0x1_0000_0000_0000_0000

  predicate Is32(x: int) {
    -TWO_31 <= x < TWO_31
  }

  predicate Is64(x: int) {
    -TWO_63 <= x < TWO_63
  }

  /** The low 32 bits, sign-extended. */
  function Wrap32(x: int): (r: int)
    ensures Is32(r) && (Is32(x) ==> r == x)
  {
    var u := x % TWO_32;
    if u >= TWO_31 then u - TWO_32 else u
  }

  function Wrap64(x: int): (r: int)
    ensures Is64(r) && (Is64(x) ==> r == x)
  {
    var u := x % TWO_64;
    if u >= TWO_63 then u - TWO_64 else u
  }

  lemma Wrap64Shift(x: int, k: int)
    ensures Wrap64(x + k * TWO_64) == Wrap64(x)
  {
  }

  /** Wrapping early or late makes no difference. */
  lemma Wrap64Add(x: int, y: int)
    ensures Wrap64(Wrap64(x) + Wrap64(y)) == Wrap64(x + y)
  {
    var kx, ky := x / TWO_64, y / TWO_64;
    Wrap64Shift(x + y, -1);
    Wrap64Shift(x + y, 1);
    Wrap64Shift(x + y, 2);
    Wrap64Shift(Wrap64(x) + Wrap64(y), kx + ky);
    Wrap64Shift(Wrap64(x) + Wrap64(y), kx + ky + 1);
    Wrap64Shift(Wrap64(x) + Wrap64(y), kx + ky + 2);
  }

  /** Division truncates toward zero. A zero divisor gives an arbitrary result, here zero. */
  function Quotient(x: int, y: int): int {
    if y == 0 then 0
    else if x >= 0 then (if y > 0 then x / y else -(x / -y))
    else (if y > 0 then -(-x / y) else -x / -y)
  }

  // ----- memory -----

  type Byte = x: int | 0 <= x < 256

  type Memory = int -> Byte

  function SetByte(m: Memory, a: int, x: Byte): Memory {
    b => if b == a then x else m(b)
  }

  /** Fits into `n` bytes as a signed number. */
  predicate Fits(x: int, n: nat)
    requires n > 0
    decreases n
  {
    if n == 1 then -128 <= x < 128 else Fits(x / 256, n - 1)
  }

  /** The `n` bytes from `a`, little-endian, as a signed number. */
  function Read(m: Memory, a: int, n: nat): int
    requires n > 0
    decreases n
  {
    if n == 1 then if m(a) >= 128 then m(a) - 256 else m(a)
    else m(a) + 256 * Read(m, a + 1, n - 1)
  }

  /** The low `n` bytes of `x`, written from `a`. */
  function Write(m: Memory, a: int, n: nat, x: int): Memory
    requires n > 0
    decreases n
  {
    if n == 1 then SetByte(m, a, x % 256) else Write(SetByte(m, a, x % 256), a + 1, n - 1, x / 256)
  }

  lemma {:induction false} WriteElsewhere(m: Memory, a: int, n: nat, x: int, b: int)
    requires n > 0 && (b < a || a + n <= b)
    ensures Write(m, a, n, x)(b) == m(b)
    decreases n
  {
    if n > 1 {
      WriteElsewhere(SetByte(m, a, x % 256), a + 1, n - 1, x / 256, b);
    }
  }

  lemma {:induction false} ReadWritten(m: Memory, a: int, n: nat, x: int)
    requires n > 0 && Fits(x, n)
    ensures Read(Write(m, a, n, x), a, n) == x
    decreases n
  {
    if n > 1 {
      var m' := SetByte(m, a, x % 256);
      WriteElsewhere(m', a + 1, n - 1, x / 256, a);
      ReadWritten(m', a + 1, n - 1, x / 256);
    }
  }

  lemma {:induction false} ReadSame(m: Memory, m': Memory, a: int, n: nat)
    requires n > 0 && forall b :: a <= b < a + n ==> m(b) == m'(b)
    ensures Read(m, a, n) == Read(m', a, n)
    decreases n
  {
    if n > 1 {
      ReadSame(m, m', a + 1, n - 1);
    }
  }

  lemma ReadElsewhere(m: Memory, a: int, n: nat, x: int, b: int, k: nat)
    requires n > 0 && k > 0 && (b + k <= a || a + n <= b)
    ensures Read(Write(m, a, n, x), b, k) == Read(m, b, k)
  {
    forall c | b <= c < b + k
      ensures Write(m, a, n, x)(c) == m(c)
    {
      WriteElsewhere(m, a, n, x, c);
    }
    ReadSame(Write(m, a, n, x), m, b, k);
  }

  /** Writing depends on the low bytes only, and on the bytes outside only for those. */
  lemma {:induction false} WriteAlike(m: Memory, m': Memory, a: int, n: nat, x: int, b: int)
    requires n > 0 && (a <= b < a + n || m(b) == m'(b))
    ensures Write(m, a, n, x)(b) == Write(m', a, n, x)(b)
    decreases n
  {
    if n > 1 {
      var s, s' := SetByte(m, a, x % 256), SetByte(m', a, x % 256);
      if b == a {
        WriteElsewhere(s, a + 1, n - 1, x / 256, a);
        WriteElsewhere(s', a + 1, n - 1, x / 256, a);
      } else {
        WriteAlike(s, s', a + 1, n - 1, x / 256, b);
      }
    }
  }

  lemma Fits4(x: int)
    ensures Fits(x, 4) <==> Is32(x)
  {
    assert Fits(x, 4) == Fits(x / 256, 3);
    assert Fits(x / 256, 3) == Fits(x / 256 / 256, 2);
    assert Fits(x / 256 / 256, 2) == Fits(x / 256 / 256 / 256, 1);
  }

  lemma Fits8(x: int)
    ensures Fits(x, 8) <==> Is64(x)
  {
    var y := x / 256 / 256 / 256 / 256;
    assert Fits(x, 8) == Fits(x / 256, 7);
    assert Fits(x / 256, 7) == Fits(x / 256 / 256, 6);
    assert Fits(x / 256 / 256, 6) == Fits(x / 256 / 256 / 256, 5);
    assert Fits(x / 256 / 256 / 256, 5) == Fits(y, 4);
    Fits4(y);
  }

  // ----- bits -----

  /** Exclusive or, bit by bit, of the low `n` bits. */
  function XorBits(x: int, y: int, n: nat): (r: nat)
    decreases n
  {
    if n == 0 then 0 else (if x % 2 == y % 2 then 0 else 1) + 2 * XorBits(x / 2, y / 2, n - 1)
  }

  function Power2(n: nat): (r: nat)
    ensures r > 0
  {
    if n == 0 then 1 else 2 * Power2(n - 1)
  }

  /** Exclusive or vanishes exactly on numbers that agree in the bits compared. */
  lemma {:induction false} XorZero(x: int, y: int, n: nat)
    requires 0 <= x < Power2(n) && 0 <= y < Power2(n)
    ensures XorBits(x, y, n) == 0 <==> x == y
    decreases n
  {
    if n > 0 {
      XorZero(x / 2, y / 2, n - 1);
    }
  }

  lemma {:induction false} XorBelow(x: int, y: int, n: nat)
    ensures XorBits(x, y, n) < Power2(n)
    decreases n
  {
    if n > 0 {
      XorBelow(x / 2, y / 2, n - 1);
    }
  }

  function Xor64(x: int, y: int): int {
    Wrap64(XorBits(x % TWO_64, y % TWO_64, 64))
  }

  lemma Power2At64()
    ensures Power2(64) == TWO_64
  {
    assert Power2(8) == 256;
    assert Power2(16) == 0x1_0000;
    assert Power2(24) == 0x100_0000;
    assert Power2(32) == TWO_32;
    assert Power2(40) == 0x100_0000_0000;
    assert Power2(48) == 0x1_0000_0000_0000;
    assert Power2(56) == 0x100_0000_0000_0000;
  }

  lemma SameResidue(x: int, y: int)
    requires Is64(x) && Is64(y)
    ensures 0 <= x % TWO_64 < TWO_64 && (x % TWO_64 == y % TWO_64 <==> x == y)
  {
  }

  lemma Wrap64Zero(u: int)
    requires 0 <= u < TWO_64
    ensures Wrap64(u) == 0 <==> u == 0
  {
  }

  lemma Xor64Zero(x: int, y: int)
    requires Is64(x) && Is64(y)
    ensures Xor64(x, y) == 0 <==> x == y
  {
    hide XorBits, Power2, Wrap64;
    Power2At64();
    SameResidue(x, y);
    SameResidue(y, x);
    var a, b := x % TWO_64, y % TWO_64;
    XorZero(a, b, 64);
    XorBelow(a, b, 64);
    Wrap64Zero(XorBits(a, b, 64));
  }
}
