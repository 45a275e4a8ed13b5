/** What the operators of arithmetic expressions give, said of their operands in integers: an
    operator is named by its spelling. */
module ExprArith {
  import opened BinaryDigits
  import opened Int64
  import I = Int64
  import opened Numerals
  import opened ExprState
  import opened ExprTree

  // v and x differ by a multiple of 2^64.
  ghost predicate Congruent(v: int, x: int) { exists k :: Apart(v, x, k) }

  ghost predicate Apart(v: int, x: int, k: int) { v == x + k * 18446744073709551616 }

  // q is the quotient of a and b rounded towards 0, and r has the sign of a.
  ghost predicate Divides(a: int, b: int, q: int, r: int) {
    && b != 0 && a == q * b + r
    && (if b < 0 then b < r < -b else -b < r < b)
    && (r < 0 ==> a < 0) && (r > 0 ==> a > 0)
  }

  predicate Says(v: int, b: bool) { v == if b then 1 else 0 }

  // The k-th bit in two's complement.
  predicate SignedBit(x: int, k: nat)
    requires -9223372036854775808 <= x < 9223372036854775808
  {
    Bit(if x < 0 then x + 18446744073709551616 else x, k)
  }

  // v is what the binary operator op makes of a and b.
  ghost predicate Makes(op: string, a: I64, b: I64, v: I64) {
    match op
    case "+" => Congruent(v, a + b)
    case "-" => Congruent(v, a - b)
    case "*" => Congruent(v, a * b)
    case "/" => exists r: int :: Divides(a, b, v, r)
    case "%" => exists q: int :: Divides(a, b, q, v)
    case "**" => b >= 0 && Congruent(v, I.Pow(a, b))
    case "<" => Says(v, a < b)
    case ">" => Says(v, a > b)
    case "<=" => Says(v, a <= b)
    case ">=" => Says(v, a >= b)
    case "==" => Says(v, a == b)
    case "!=" => Says(v, a != b)
    case "&&" => Says(v, a != 0 && b != 0)
    case "||" => Says(v, a != 0 || b != 0)
    case "<<" => 0 <= b < 64 && Congruent(v, a * Power2(b))
    case ">>" => 0 <= b < 64 && v * Power2(b) <= a < (v + 1) * Power2(b)
    case "&" => forall k: nat :: k < 64 ==> (SignedBit(v, k) <==> SignedBit(a, k) && SignedBit(b, k))
    case "|" => forall k: nat :: k < 64 ==> (SignedBit(v, k) <==> SignedBit(a, k) || SignedBit(b, k))
    case "^" => forall k: nat :: k < 64 ==> (SignedBit(v, k) <==> SignedBit(a, k) != SignedBit(b, k))
    case "," => v == b
    case _ => false
  }

  // op has no value for a and b, because of e.
  predicate Refuses(op: string, a: I64, b: I64, e: Error) {
    if op == "/" || op == "%" then
      (b == 0 && e == DivisionByZero) || (a == -TWO_63 && b == -1 && e == Undefined)
    else if op == "<<" || op == ">>" then (b < 0 || b > 63) && e == Undefined
    else op == "**" && b < 0 && e == NegativeExponent
  }

  // v is what the unary operator op makes of a.
  ghost predicate Turns(op: string, a: I64, v: I64) {
    match op
    case "!" => Says(v, a == 0)
    case "~" => forall k: nat :: k < 64 ==> (SignedBit(v, k) <==> !SignedBit(a, k))
    case "-" => Congruent(v, 0 - a)
    case "+" => v == a
    case _ => false
  }

  // ---- the evaluator's operators are these ----

  lemma WrapMakes(x: int)
    ensures Congruent(Wrap(x), x)
  {
    var k :| Shifted(x, Wrap(x), k);
    assert Apart(Wrap(x), x, k);
  }

  lemma QuotientMakes(a: I64, b: I64)
    requires b != 0
    ensures Divides(a, b, TruncDiv(a, b), TruncMod(a, b))
  {
    var q: int, r: int := TruncDiv(a, b), TruncMod(a, b);
    hide TruncDiv, TruncMod;
    TruncDivLaw(a, b);
    Signs(a, b, q, r);
  }

  lemma Signs(a: int, b: int, q: int, r: int)
    requires b != 0 && a == q * b + r && Abs(r) < Abs(b) && (r == 0 || (r < 0 <==> a < 0))
    ensures Divides(a, b, q, r)
  {
  }

  lemma ShiftMakes(a: I64, b: I64)
    requires 0 <= b < 64
    ensures I.Pow(2, b) == Power2(b)
    ensures var v := FloorDiv(a, Power2(b)); v * Power2(b) <= a < (v + 1) * Power2(b)
  {
    TwoPowers(b);
  }

  lemma {:induction false} TwoPowers(n: nat)
    ensures I.Pow(2, n) == Power2(n)
  {
    if n > 0 {
      TwoPowers(n - 1);
    }
  }

  lemma SignedBack(u: nat, k: nat)
    requires u < TWO_64
    ensures SignedBit(Signed(u), k) <==> Bit(u, k)
  {
  }

  lemma BitwiseMakes(a: I64, b: I64, k: nat)
    requires k < 64
    ensures SignedBit(And(a, b), k) <==> SignedBit(a, k) && SignedBit(b, k)
    ensures SignedBit(Or(a, b), k) <==> SignedBit(a, k) || SignedBit(b, k)
    ensures SignedBit(Xor(a, b), k) <==> SignedBit(a, k) != SignedBit(b, k)
  {
    var x, y := Unsigned(a), Unsigned(b);
    SixtyFour();
    OrBound(x, y, 64);
    XorBound(x, y, 64);
    AndBits(x, y, k);
    OrBits(x, y, k);
    XorBits(x, y, k);
    SignedBack(BitAnd(x, y), k);
    SignedBack(BitOr(x, y), k);
    SignedBack(BitXor(x, y), k);
  }

  lemma ComplementMakes(a: I64, k: nat)
    requires k < 64
    ensures SignedBit(-1 - a, k) <==> !SignedBit(a, k)
  {
    SixtyFour();
    ComplementBits(Unsigned(a), 64, k);
    assert Unsigned(-1 - a) == TWO_64 - 1 - Unsigned(a);
  }

  // The value or the refusal of a binary operator, but for powers.
  lemma BinaryMakes(op: Token, a: I64, b: I64)
    requires OpLevel(op) != 0
    ensures match BinaryValue(op, a, b)
            case Done(v) => Makes(Spell(op), a, b, v) && forall e :: !Refuses(Spell(op), a, b, e)
            case Bad(e) => Refuses(Spell(op), a, b, e)
  {
    hide Wrap, TruncDiv, TruncMod, And, Or, Xor, FloorDiv, Congruent, Divides, SignedBit;
    if op.Ch? {
      CharMakes(op.c, a, b);
    } else if op == Lsh || op == Rsh {
      if 0 <= b < 64 {
        ShiftMakes(a, b);
        WrapMakes(a * Power2(b));
      }
    }
  }

  lemma CharMakes(c: char, a: I64, b: I64)
    requires OpLevel(Ch(c)) != 0
    ensures match BinaryValue(Ch(c), a, b)
            case Done(v) => Makes([c], a, b, v) && forall e :: !Refuses([c], a, b, e)
            case Bad(e) => Refuses([c], a, b, e)
  {
    hide Wrap, TruncDiv, TruncMod, And, Or, Xor, Congruent, SignedBit, Divides;
    if c == '/' || c == '%' {
      DivisionMakes(c, a, b);
    } else if c == '&' || c == '^' || c == '|' {
      forall k: nat | k < 64
        ensures SignedBit(And(a, b), k) <==> SignedBit(a, k) && SignedBit(b, k)
        ensures SignedBit(Or(a, b), k) <==> SignedBit(a, k) || SignedBit(b, k)
        ensures SignedBit(Xor(a, b), k) <==> SignedBit(a, k) != SignedBit(b, k)
      {
        BitwiseMakes(a, b, k);
      }
    } else {
      WrapMakes(a + b);
      WrapMakes(a - b);
      WrapMakes(a * b);
    }
  }

  lemma DivisionMakes(c: char, a: I64, b: I64)
    requires c == '/' || c == '%'
    ensures match BinaryValue(Ch(c), a, b)
            case Done(v) => Makes([c], a, b, v) && forall e :: !Refuses([c], a, b, e)
            case Bad(e) => Refuses([c], a, b, e)
  {
    hide TruncDiv, TruncMod, Divides;
    if b != 0 && !(a == -TWO_63 && b == -1) {
      QuotientMakes(a, b);
    }
  }

  lemma UnaryMakes(op: Token, a: I64)
    requires Unary(op)
    ensures Turns(Spell(op), a, UnaryValue(op, a))
  {
    WrapMakes(0 - a);
    hide Wrap, Congruent, SignedBit;
    forall k: nat | k < 64 ensures SignedBit(-1 - a, k) <==> !SignedBit(a, k) {
      ComplementMakes(a, k);
    }
  }

  lemma PowerMakes(a: I64, b: I64)
    ensures match PowerValue(a, b)
            case Done(v) => Makes("**", a, b, v) && forall e :: !Refuses("**", a, b, e)
            case Bad(e) => Refuses("**", a, b, e)
  {
    if b >= 0 {
      PowLoopMeaning(1, a, b);
      WrapMakes(I.Pow(a, b));
    }
  }

  lemma SteppedMakes(v: I64, up: bool)
    ensures Congruent(Stepped(v, up), if up then v + 1 else v - 1)
  {
    WrapMakes(if up then v + 1 else v - 1);
  }
}
