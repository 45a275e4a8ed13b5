/** The shell's intmax_t: 64-bit two's complement integers, with the operators the
    arithmetic evaluator applies to them.  Sums and products wrap; an operation whose
    result C leaves undefined is reported as such instead of being given a value. */
module Int64 {
  import opened BinaryDigits

  const TWO_63: int := 0x8000_0000_0000_0000
  const TWO_64: int := 0x1_0000_0000_0000_0000

  type I64 = x: int | -TWO_63 <= x < TWO_63

  // The representative of x modulo 2^64 in the signed range.
  function Wrap(x: int): (r: I64)
    ensures exists k :: Shifted(x, r, k)
    ensures -TWO_63 <= x < TWO_63 ==> r == x
  {
    var r := (x + TWO_63) % TWO_64 - TWO_63;
    assert Shifted(x, r, -((x + TWO_63) / TWO_64));
    r
  }

  ghost predicate Shifted(x: int, r: int, k: int) {
    r == x + k * TWO_64
  }

  // Wrap names the only signed number that differs from x by a multiple of 2^64.
  lemma WrapUnique(x: int, r: int, k: int)
    requires -TWO_63 <= r < TWO_63
    requires r == x + k * TWO_64
    ensures Wrap(x) == r
  {
    var w := Wrap(x);
    var j :| Shifted(x, w, j);
    assert w - r == (j - k) * TWO_64;
  }

  // Wrapping an operand first does not change a wrapped product.
  lemma WrapProduct(a: int, b: int)
    ensures Wrap(Wrap(a) * b) == Wrap(a * b)
  {
    var j :| Shifted(a, Wrap(a), j);
    var k :| Shifted(Wrap(a) * b, Wrap(Wrap(a) * b), k);
    assert Wrap(a) * b == a * b + (j * b) * TWO_64 by {
      assert Wrap(a) == a + j * TWO_64;
      assert (j * TWO_64) * b == (j * b) * TWO_64;
    }
    WrapUnique(a * b, Wrap(Wrap(a) * b), j * b + k);
  }

  // ---------- truncating division ----------

  function TruncDiv(a: int, b: int): int
    requires b != 0
  {
    var q := Abs(a) / Abs(b);
    if (a < 0) == (b < 0) then q else -q
  }

  function TruncMod(a: int, b: int): int
    requires b != 0
  {
    a - TruncDiv(a, b) * b
  }

  function Abs(x: int): nat { if x < 0 then -x else x }

  // C's division: the quotient rounds toward zero and the remainder has the dividend's sign.
  lemma TruncDivLaw(a: int, b: int)
    requires b != 0
    ensures a == TruncDiv(a, b) * b + TruncMod(a, b)
    ensures Abs(TruncMod(a, b)) < Abs(b)
    ensures TruncMod(a, b) == 0 || (TruncMod(a, b) < 0 <==> a < 0)
  {
    var q, r := Abs(a) / Abs(b), Abs(a) % Abs(b);
    assert Abs(a) == q * Abs(b) + r;
    assert TruncDiv(a, b) * b == if a < 0 then -(q * Abs(b)) else q * Abs(b);
  }

  lemma QuotientBound(x: nat, d: nat)
    requires d >= 1
    ensures x / d <= x
    ensures d >= 2 ==> 2 * (x / d) <= x
  {
    var q := x / d;
    assert q * d <= x;
    if d >= 2 {
      assert q * 2 <= q * d;
    }
  }

  // ---------- powers ----------

  function Pow(b: int, n: nat): int {
    if n == 0 then 1 else Pow(b, n - 1) * b
  }

  // The loop of exppower: n more multiplications of c by b, each wrapping.
  function PowLoop(c: I64, b: I64, n: nat): I64
    decreases n
  {
    if n == 0 then c else PowLoop(Wrap(c * b), b, n - 1)
  }

  lemma {:induction false} PowLoopMeaning(c: I64, b: I64, n: nat)
    ensures PowLoop(c, b, n) == Wrap(c * Pow(b, n))
    decreases n
  {
    if n == 0 {
    } else {
      var p := Pow(b, n - 1);
      PowLoopMeaning(Wrap(c * b), b, n - 1);
      WrapProduct(c * b, p);
      Regroup(c, b, p);
    }
  }

  lemma Regroup(c: int, b: int, p: int)
    ensures (c * b) * p == c * (p * b)
  {
  }

  // ---------- bits ----------

  // A number in two's complement, and back.
  function Unsigned(x: I64): nat { if x < 0 then x + TWO_64 else x }

  function Signed(u: nat): I64
    requires u < TWO_64
  {
    if u < TWO_63 then u else u - TWO_64
  }

  lemma SixtyFour()
    ensures Power2(64) == TWO_64
  {
    assert Power2(8) == 256;
    assert Power2(16) == 65536;
    assert Power2(24) == 0x100_0000;
    assert Power2(32) == 0x1_0000_0000;
    assert Power2(40) == 0x100_0000_0000;
    assert Power2(48) == 0x1_0000_0000_0000;
    assert Power2(56) == 0x100_0000_0000_0000;
  }

  function And(a: I64, b: I64): I64 { Signed(BitAnd(Unsigned(a), Unsigned(b))) }

  function Or(a: I64, b: I64): I64 {
    SixtyFour();
    OrBound(Unsigned(a), Unsigned(b), 64);
    Signed(BitOr(Unsigned(a), Unsigned(b)))
  }

  function Xor(a: I64, b: I64): I64 {
    SixtyFour();
    XorBound(Unsigned(a), Unsigned(b), 64);
    Signed(BitXor(Unsigned(a), Unsigned(b)))
  }

  function FloorDiv(a: int, d: int): int
    requires d > 0
  {
    a / d
  }

  function Truth(b: bool): I64 { if b then 1 else 0 }
}
