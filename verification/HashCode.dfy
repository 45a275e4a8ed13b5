/** The string hash of hashlib.c and the choice of a bucket, on 32-bit unsigned numbers. */
module HashCode {
  import opened BinaryDigits

  const TWO_32: int := 0x1_0000_0000

  // A char, sign-extended to an unsigned int.
  function CharBits(c: char): nat {
    var b := c as int % 256;
    if b < 128 then b else b + TWO_32 - 256
  }

  function HashStep(i: nat, c: char): nat {
    BitXor((i * 16777619) % TWO_32, CharBits(c))
  }

  function Hash(s: string): nat {
    if s == [] then 0 else HashStep(Hash(s[..|s| - 1]), s[|s| - 1])
  }

  // HASH_BUCKET.
  function Bucket(h: nat, n: nat): (b: nat)
    requires n > 0
    ensures b < n
  {
    BitAnd(h, n - 1)
  }

  // hash_string.
  method HashString(s: string) returns (i: nat)
    ensures i == Hash(s)
  {
    i := 0;
    for k := 0 to |s|
      invariant i == Hash(s[..k])
    {
      assert s[..k + 1][..k] == s[..k];
      i := HashStep(i, s[k]);
    }
    assert s[..|s|] == s;
  }

  // A hash fits an unsigned int.
  lemma HashFits(s: string)
    ensures Hash(s) < TWO_32
  {
    if s != [] {
      assert Power2(32) == TWO_32 by {
        assert Power2(8) == 256;
        assert Power2(16) == 65536;
        assert Power2(24) == 0x100_0000;
      }
      XorBound((Hash(s[..|s| - 1]) * 16777619) % TWO_32, CharBits(s[|s| - 1]), 32);
    }
  }

  // ---- what a character does to the hash ----

  // A char is sign-extended: its bit 7 is also all higher ones.
  lemma CharBitsAre(c: char, k: nat)
    requires k < 32
    ensures Bit(CharBits(c), k) <==> Bit(c as int % 256, if k < 8 then k else 7)
  {
    var b := c as int % 256;
    assert Power2(7) == 128 && Power2(8) == 256 && Power2(16) == 65536 && Power2(24) == 0x100_0000;
    if b < 128 {
      HighBitClear(b, 7, if k < 8 then 7 else k);
      HighBitClear(b, 7, 7);
    } else {
      assert CharBits(c) == (Power2(24) - 1) * Power2(8) + b;
      BitsOfParts(Power2(24) - 1, b, 8, k);
      assert b == 1 * Power2(7) + (b - 128);
      BitsOfParts(1, b - 128, 7, 7);
      if k >= 8 {
        AllOnes(24, k - 8);
      }
      assert Bit(1, 0);
    }
  }

  // The empty text hashes to 0; a character behind a text multiplies its hash by 2^24 + 403, in
  // 32 bits, and then turns over the bits that the character has, sign-extended.
  lemma HashBits(s: string, c: char, k: nat)
    requires k < 32
    ensures Hash("") == 0
    ensures var product := Hash(s) * (16 * 1048576 + 403) % 4294967296;
            Bit(Hash(s + [c]), k) <==> Bit(product, k) != Bit(c as int % 256, if k < 8 then k else 7)
  {
    assert (s + [c])[..|s|] == s;
    XorBits((Hash(s) * 16777619) % TWO_32, CharBits(c), k);
    CharBitsAre(c, k);
  }

  // Multiplying in 32 bits can be undone, because the factor has an inverse.
  lemma FactorUndone(x: nat)
    requires x < TWO_32
    ensures ((x * 16777619) % TWO_32) * 899433627 % TWO_32 == x
  {
    var y, q := (x * 16777619) % TWO_32, (x * 16777619) / TWO_32;
    assert 16777619 * 899433627 == 3513497 * TWO_32 + 1;
    assert y == x * 16777619 - q * TWO_32;
    var n := x * 3513497 - q * 899433627;
    assert y * 899433627 == n * TWO_32 + x by {
      assert (x * 16777619) * 899433627 == x * (16777619 * 899433627) == x * 3513497 * TWO_32 + x;
      assert (q * TWO_32) * 899433627 == (q * 899433627) * TWO_32;
    }
    RemainderOf(y * 899433627, n, x);
  }

  lemma RemainderOf(z: nat, n: int, x: nat)
    requires x < TWO_32 && z == n * TWO_32 + x
    ensures z % TWO_32 == x
  {
  }

  // Texts of the same length that differ in one character only have different hashes.
  lemma {:induction false} DifferOnce(a: string, c: char, d: char, b: string)
    requires c as int < 256 && d as int < 256 && c != d
    ensures Hash(a + [c] + b) != Hash(a + [d] + b)
    decreases |b|
  {
    var h := (Hash(a) * 16777619) % TWO_32;
    if b == [] {
      assert a + [c] + b == a + [c] && a + [d] + b == a + [d];
      assert (a + [c])[..|a|] == a && (a + [d])[..|a|] == a;
      XorCancels(CharBits(c), CharBits(d), h);
    } else {
      var n, e := |b| - 1, b[|b| - 1];
      var x, y := a + [c] + b[..n], a + [d] + b[..n];
      DifferOnce(a, c, d, b[..n]);
      assert (a + [c] + b) == x + [e] && (a + [d] + b) == y + [e];
      assert (x + [e])[..|x|] == x && (y + [e])[..|y|] == y;
      HashFits(x);
      HashFits(y);
      FactorUndone(Hash(x));
      FactorUndone(Hash(y));
      XorTwice((Hash(x) * 16777619) % TWO_32, CharBits(e));
      XorTwice((Hash(y) * 16777619) % TWO_32, CharBits(e));
    }
  }

  // With a power of two of buckets, masking takes the remainder, so every bucket can be hit.
  lemma {:induction false} BucketIsRemainder(h: nat, k: nat)
    ensures Bucket(h, Power2(k)) == h % Power2(k)
  {
    if k > 0 {
      var n := Power2(k - 1);
      BucketIsRemainder(h / 2, k - 1);
      assert BitAnd(h / 2, n - 1) == (h / 2) % n;
      assert Power2(k) == 2 * n;
      Doubled(h, n);
    }
  }

  lemma Doubled(h: nat, n: nat)
    requires n > 0 && BitAnd(h / 2, n - 1) == (h / 2) % n
    ensures BitAnd(h, 2 * n - 1) == h % (2 * n)
  {
    hide BitAnd;
    MaskStep(h, 2 * n - 1);
    assert (2 * n - 1) / 2 == n - 1 && (2 * n - 1) % 2 == 1;
    HalfRemainder(h, n);
  }

  lemma HalfRemainder(h: nat, n: nat)
    requires n > 0
    ensures h % (2 * n) == 2 * ((h / 2) % n) + h % 2
  {
    var q, r := (h / 2) / n, (h / 2) % n;
    assert h / 2 == q * n + r;
    Halves(q, n, r, h);
    RemainderIs(h, q, 2 * n, 2 * r + h % 2);
  }

  lemma MaskStep(h: nat, m: nat)
    ensures BitAnd(h, m) == 2 * BitAnd(h / 2, m / 2) + if h % 2 == 1 && m % 2 == 1 then 1 else 0
  {
  }

  lemma Halves(q: nat, n: nat, r: nat, h: nat)
    requires h / 2 == q * n + r
    ensures h == q * (2 * n) + (2 * r + h % 2)
  {
    assert q * (2 * n) == 2 * (q * n);
  }

  lemma RemainderIs(x: nat, q: nat, d: nat, t: nat)
    requires t < d && x == q * d + t
    ensures x % d == t
  {
    var q', t' := x / d, x % d;
    assert x == q' * d + t';
    assert (q' - q) * d == q' * d - q * d;
    NoMultiple(q' - q, d);
  }

  lemma NoMultiple(k: int, d: int)
    requires d > 0 && -d < k * d < d
    ensures k == 0
  {
    if k > 0 {
      AtLeast(k, d);
    } else if k < 0 {
      AtMost(k, d);
    }
  }

  lemma AtMost(k: int, d: int)
    requires k < 0 && d > 0
    ensures k * d <= -d
  {
    var m := -k;
    AtLeast(m, d);
    assert k * d == -(m * d);
  }

  lemma AtLeast(k: int, d: int)
    requires k > 0 && d > 0
    ensures k * d >= d
  {
    assert k * d == (k - 1) * d + d;
  }
}
