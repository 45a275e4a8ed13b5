/** The bitwise operators of C on numbers that are not negative. */
module BinaryDigits {
  function BitAnd(a: nat, b: nat): (r: nat)
    ensures r <= a && r <= b
  {
    if a == 0 || b == 0 then 0 else 2 * BitAnd(a / 2, b / 2) + if a % 2 == 1 && b % 2 == 1 then 1 else 0
  }

  function BitXor(a: nat, b: nat): nat {
    if a == 0 then b else if b == 0 then a else 2 * BitXor(a / 2, b / 2) + if a % 2 != b % 2 then 1 else 0
  }

  function BitOr(a: nat, b: nat): nat {
    if a == 0 then b else if b == 0 then a else 2 * BitOr(a / 2, b / 2) + if a % 2 == 1 || b % 2 == 1 then 1 else 0
  }

  function Power2(k: nat): (p: nat)
    ensures p > 0
  {
    if k == 0 then 1 else 2 * Power2(k - 1)
  }

  // The k-th bit.
  predicate Bit(x: nat, k: nat) { (x / Power2(k)) % 2 == 1 }

  lemma {:induction false} BitUp(x: nat, k: nat)
    ensures k > 0 ==> (Bit(x, k) <==> Bit(x / 2, k - 1))
    ensures Bit(x, 0) <==> x % 2 == 1
  {
    if k > 0 {
      HalvedTwice(x, Power2(k - 1));
    }
  }

  lemma HalvedTwice(x: nat, p: nat)
    requires p > 0
    ensures x / (2 * p) == (x / 2) / p
  {
    var q, r := (x / 2) / p, (x / 2) % p;
    assert x == 2 * (x / 2) + x % 2 && x / 2 == q * p + r;
    assert x == q * (2 * p) + (2 * r + x % 2) && 0 <= 2 * r + x % 2 < 2 * p;
    QuotientIs(x, 2 * p, q, 2 * r + x % 2);
  }

  lemma QuotientIs(x: nat, d: nat, q: nat, r: nat)
    requires x == q * d + r && r < d
    ensures x / d == q
  {
    var q', r' := x / d, x % d;
    assert q' * d + r' == q * d + r;
    assert q' < q ==> (q' + 1) * d <= q * d;
    assert q < q' ==> (q + 1) * d <= q' * d;
  }

  lemma {:induction false} XorBits(a: nat, b: nat, k: nat)
    ensures Bit(BitXor(a, b), k) <==> Bit(a, k) != Bit(b, k)
    decreases k
  {
    hide Bit;
    NoBits(k);
    if a != 0 && b != 0 {
      BitUp(a, k);
      BitUp(b, k);
      BitUp(BitXor(a, b), k);
      if k > 0 {
        XorBits(a / 2, b / 2, k - 1);
      }
    }
  }

  lemma NoBits(k: nat)
    ensures !Bit(0, k)
  {
  }

  lemma {:induction false} OrBits(a: nat, b: nat, k: nat)
    ensures Bit(BitOr(a, b), k) <==> Bit(a, k) || Bit(b, k)
    decreases k
  {
    hide Bit;
    NoBits(k);
    if a != 0 && b != 0 {
      BitUp(a, k);
      BitUp(b, k);
      BitUp(BitOr(a, b), k);
      if k > 0 {
        OrBits(a / 2, b / 2, k - 1);
      }
    }
  }

  lemma {:induction false} AndBits(a: nat, b: nat, k: nat)
    ensures Bit(BitAnd(a, b), k) <==> Bit(a, k) && Bit(b, k)
    decreases k
  {
    hide Bit;
    NoBits(k);
    if a != 0 && b != 0 {
      BitUp(a, k);
      BitUp(b, k);
      BitUp(BitAnd(a, b), k);
      if k > 0 {
        AndBits(a / 2, b / 2, k - 1);
      }
    }
  }

  lemma {:induction false} XorBound(a: nat, b: nat, k: nat)
    requires a < Power2(k) && b < Power2(k)
    ensures BitXor(a, b) < Power2(k)
  {
    if k > 0 {
      XorBound(a / 2, b / 2, k - 1);
    }
  }

  lemma {:induction false} OrBound(a: nat, b: nat, k: nat)
    requires a < Power2(k) && b < Power2(k)
    ensures BitOr(a, b) < Power2(k)
  {
    if k > 0 {
      OrBound(a / 2, b / 2, k - 1);
    }
  }

  lemma {:induction false} XorTwice(a: nat, b: nat)
    ensures BitXor(BitXor(a, b), b) == a
    decreases a + b
  {
    if a != 0 && b != 0 {
      XorTwice(a / 2, b / 2);
    } else if a == 0 {
      XorSelf(b);
    }
  }

  lemma {:induction false} XorSelf(b: nat)
    ensures BitXor(b, b) == 0
  {
    if b != 0 {
      XorSelf(b / 2);
    }
  }

  lemma XorCancels(c: nat, d: nat, h: nat)
    requires c != d
    ensures BitXor(h, c) != BitXor(h, d)
  {
    XorSwapped(h, c);
    XorSwapped(h, d);
    XorTwice(c, h);
    XorTwice(d, h);
  }

  lemma {:induction false} XorSwapped(a: nat, b: nat)
    ensures BitXor(a, b) == BitXor(b, a)
    decreases a + b
  {
    if a != 0 && b != 0 {
      XorSwapped(a / 2, b / 2);
    }
  }

  // The bits of a number that is put together from a high and a low part.
  lemma {:induction false} BitsOfParts(high: nat, low: nat, n: nat, k: nat)
    requires low < Power2(n)
    ensures Bit(high * Power2(n) + low, k) <==> if k < n then Bit(low, k) else Bit(high, k - n)
    decreases n
  {
    hide Bit;
    if n > 0 {
      var p, x := Power2(n - 1), high * Power2(n) + low;
      assert high * Power2(n) == 2 * (high * p);
      assert x / 2 == high * p + low / 2 && x % 2 == low % 2;
      BitUp(x, k);
      BitUp(low, k);
      if k > 0 {
        BitsOfParts(high, low / 2, n - 1, k - 1);
      }
    }
  }

  lemma {:induction false} AllOnes(n: nat, k: nat)
    requires k < n
    ensures Bit(Power2(n) - 1, k)
  {
    BitUp(Power2(n) - 1, k);
    if k > 0 {
      assert (Power2(n) - 1) / 2 == Power2(n - 1) - 1;
      AllOnes(n - 1, k - 1);
    }
  }

  lemma {:induction false} HighBitClear(x: nat, n: nat, k: nat)
    requires x < Power2(n) && n <= k
    ensures !Bit(x, k)
    decreases k
  {
    BitUp(x, k);
    if n == 0 {
      NoBits(k);
    } else {
      HighBitClear(x / 2, n - 1, k - 1);
    }
  }

  lemma {:induction false} ComplementBits(x: nat, n: nat, k: nat)
    requires x < Power2(n) && k < n
    ensures Bit(Power2(n) - 1 - x, k) <==> !Bit(x, k)
    decreases n
  {
    hide Bit;
    var y := Power2(n) - 1 - x;
    assert y / 2 == Power2(n - 1) - 1 - x / 2 && (y % 2 == 1 <==> x % 2 == 0);
    BitUp(x, k);
    BitUp(y, k);
    if k > 0 {
      ComplementBits(x / 2, n - 1, k - 1);
    }
  }
}
