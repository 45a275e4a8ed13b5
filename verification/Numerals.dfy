/** Number literals of the arithmetic evaluator: strlong (expr.c) and the decimal
    printing of itos that it has to invert. */
module Numerals {
  import opened Int64

  datatype NumResult = Value(value: I64) | BadNumber

  // A C string: reading at or past the end gives NUL.
  function At(s: string, i: nat): char {
    if i < |s| then s[i] else '\0'
  }

  predicate IsDigit(c: char) { '0' <= c <= '9' }

  predicate IsLower(c: char) { 'a' <= c <= 'z' }

  predicate IsUpper(c: char) { 'A' <= c <= 'Z' }

  predicate IsAlnum(c: char) { IsDigit(c) || IsLower(c) || IsUpper(c) }

  predicate IsDigitChar(c: char) { IsAlnum(c) || c == '_' || c == '@' }

  // The value of one digit character in the given base; letters of both cases coincide
  // up to base 36.
  function DigitValue(c: char, base: int): nat
    requires IsDigitChar(c)
  {
    if IsDigit(c) then c as int - '0' as int
    else if IsLower(c) then c as int - 'a' as int + 10
    else if IsUpper(c) then c as int - 'A' as int + (if base <= 36 then 10 else 36)
    else if c == '@' then 62
    else 63
  }

  // ---------- what strlong computes ----------

  function Strlong(s: string): NumResult {
    if At(s, 0) != '0' then Scan(s, 0, 10, false, 0)
    else if At(s, 1) == '\0' then Value(0)
    else if At(s, 1) == 'x' || At(s, 1) == 'X' then Scan(s, 2, 16, true, 0)
    else Scan(s, 1, 8, true, 0)
  }

  function Scan(s: string, i: nat, base: int, foundBase: bool, val: I64): NumResult
    decreases |s| - i
  {
    var c := At(s, i);
    if c == '#' then
      if foundBase || val < 2 || val > 64 then BadNumber
      else Scan(s, i + 1, val, true, 0)
    else if IsDigitChar(c) then
      var d := DigitValue(c, base);
      if d >= base then BadNumber else Scan(s, i + 1, base, foundBase, Wrap(val * base + d))
    else
      Value(val)
  }

  method ReadNumber(num: string) returns (r: NumResult)
    ensures r == Strlong(num)
  {
    var i, base, foundBase := 0, 10, false;
    if At(num, 0) == '0' {
      i := 1;
      if At(num, 1) == '\0' {
        return Value(0);
      }
      if At(num, 1) == 'x' || At(num, 1) == 'X' {
        base := 16;
        i := 2;
      } else {
        base := 8;
      }
      foundBase := true;
    }
    var val: I64 := 0;
    while At(num, i) != '\0'
      invariant Strlong(num) == Scan(num, i, base, foundBase, val)
      decreases |num| - i
    {
      var c := At(num, i);
      i := i + 1;
      if c == '#' {
        if foundBase || val < 2 || val > 64 {
          return BadNumber;
        }
        base, val, foundBase := val, 0, true;
      } else if IsDigitChar(c) {
        var d := DigitValue(c, base);
        if d >= base {
          return BadNumber;
        }
        val := Wrap(val * base + d);
      } else {
        break;
      }
    }
    r := Value(val);
  }

  // ---------- positional notation ----------

  // The base-b digits of n, most significant first.
  function Digits(n: nat, b: nat): (ds: seq<nat>)
    requires b >= 2
    ensures |ds| > 0
    ensures forall i :: 0 <= i < |ds| ==> ds[i] < b
    ensures n > 0 ==> ds[0] != 0
    decreases n
  {
    if n < b then [n]
    else
      QuotientSmaller(n, b);
      Digits(n / b, b) + [n % b]
  }

  lemma QuotientSmaller(n: nat, b: nat)
    requires 2 <= b <= n
    ensures 0 < n / b < n
  {
    var q, r := n / b, n % b;
    assert n == q * b + r;
  }

  // The number that digits ds stand for, when v has been read before them.
  function Horner(v: nat, ds: seq<nat>, b: nat): nat
    decreases |ds|
  {
    if ds == [] then v else Horner(v * b + ds[0], ds[1..], b)
  }

  lemma {:induction false} HornerAppend(v: nat, ds: seq<nat>, d: nat, b: nat)
    ensures Horner(v, ds + [d], b) == Horner(v, ds, b) * b + d
    decreases |ds|
  {
    if ds == [] {
    } else {
      assert (ds + [d])[1..] == ds[1..] + [d];
      HornerAppend(v * b + ds[0], ds[1..], d, b);
    }
  }

  lemma HornerOne(n: nat, b: nat)
    ensures Horner(0, [n], b) == n
  {
    assert [n][1..] == [];
  }

  lemma DivisionLaw(n: nat, b: nat)
    requires b > 0
    ensures n == (n / b) * b + n % b
  {
  }

  lemma {:induction false} HornerDigits(n: nat, b: nat)
    requires b >= 2
    ensures Horner(0, Digits(n, b), b) == n
    decreases n
  {
    if n < b {
      HornerOne(n, b);
    } else {
      var q, r := n / b, n % b;
      QuotientSmaller(n, b);
      HornerDigits(q, b);
      HornerAppend(0, Digits(q, b), r, b);
      DivisionLaw(n, b);
    }
  }

  // Text s spells digits ds: every character has the digit's value in base b.  Up to
  // base 36 this admits either case of a letter.
  ghost predicate Spells(s: string, ds: seq<nat>, b: nat) {
    && |s| == |ds|
    && forall i :: 0 <= i < |s| ==> IsDigitChar(s[i]) && DigitValue(s[i], b) == ds[i]
  }

  lemma WrapStep(val: nat, b: int, d: nat)
    ensures Wrap(Wrap(val) * b + d) == Wrap(val * b + d)
  {
    var j :| Shifted(val, Wrap(val), j);
    var k :| Shifted(Wrap(val) * b + d, Wrap(Wrap(val) * b + d), k);
    assert Wrap(val) * b == val * b + (j * b) * TWO_64 by {
      assert Wrap(val) == val + j * TWO_64;
      assert (j * TWO_64) * b == (j * b) * TWO_64;
    }
    WrapUnique(val * b + d, Wrap(Wrap(val) * b + d), j * b + k);
  }

  lemma {:induction false} ScanSpelling(s: string, i: nat, b: nat, found: bool, val: nat, ds: seq<nat>)
    requires i <= |s|
    requires Spells(s[i..], ds, b)
    requires forall k :: 0 <= k < |ds| ==> ds[k] < b
    ensures Scan(s, i, b, found, Wrap(val)) == Value(Wrap(Horner(val, ds, b)))
    decreases |ds|
  {
    if ds == [] {
    } else {
      assert s[i..][0] == s[i] && DigitValue(s[i], b) == ds[0];
      WrapStep(val, b, ds[0]);
      assert s[i + 1..] == s[i..][1..];
      ScanSpelling(s, i + 1, b, found, val * b + ds[0], ds[1..]);
    }
  }

  // ---------- decimal printing ----------

  function Dec(n: nat): (s: string)
    ensures |s| > 0
    ensures forall i :: 0 <= i < |s| ==> IsDigit(s[i])
    decreases n
  {
    if n < 10 then [('0' as int + n) as char] else Dec(n / 10) + [('0' as int + n % 10) as char]
  }

  function Itos(v: I64): string {
    var n: int := v;
    if n < 0 then "-" + Dec(-n) else Dec(n)
  }

  lemma {:induction false} DecSpells(n: nat, b: nat)
    ensures Spells(Dec(n), Digits(n, 10), b)
    decreases n
  {
    if n < 10 {
    } else {
      DecSpells(n / 10, b);
    }
  }

  // strlong undoes decimal printing; 2^63 itself comes out as the most negative number.
  lemma {:induction false} StrlongDecimal(n: nat)
    ensures Strlong(Dec(n)) == Value(Wrap(n))
  {
    var s := Dec(n);
    if n == 0 {
    } else {
      DecSpells(n, 10);
      assert s[0] != '0';
      assert s[0..] == s;
      ScanSpelling(s, 0, 10, false, 0, Digits(n, 10));
      HornerDigits(n, 10);
    }
  }

  // 0x..., in either case, reads base 16.
  lemma {:induction false} StrlongHex(n: nat, x: char, s: string)
    requires x == 'x' || x == 'X'
    requires Spells(s, Digits(n, 16), 16)
    ensures Strlong(['0', x] + s) == Value(Wrap(n))
  {
    var t := ['0', x] + s;
    assert t[2..] == s;
    ScanSpelling(t, 2, 16, true, 0, Digits(n, 16));
    HornerDigits(n, 16);
  }

  // A leading 0 reads base 8.
  lemma {:induction false} StrlongOctal(n: nat, s: string)
    requires Spells(s, Digits(n, 8), 8)
    ensures Strlong("0" + s) == Value(Wrap(n))
  {
    var t := "0" + s;
    assert t[1..] == s && t[1] == s[0];
    ScanSpelling(t, 1, 8, true, 0, Digits(n, 8));
    HornerDigits(n, 8);
  }

  lemma {:induction false} ScanBase(b: nat, s: string)
    requires 2 <= b <= 64
    ensures var t := Dec(b) + "#" + s;
            Scan(t, 0, 10, false, 0) == Scan(t, |Dec(b)| + 1, b, true, 0)
  {
    var t := Dec(b) + "#" + s;
    if b < 10 {
      assert t[0] == ('0' as int + b) as char && t[1] == '#';
      assert Scan(t, 0, 10, false, 0) == Scan(t, 1, 10, false, b);
    } else {
      assert Dec(b) == [('0' as int + b / 10) as char, ('0' as int + b % 10) as char];
      assert t[0] == ('0' as int + b / 10) as char && t[1] == ('0' as int + b % 10) as char && t[2] == '#';
      assert Scan(t, 0, 10, false, 0) == Scan(t, 1, 10, false, b / 10);
      assert Scan(t, 1, 10, false, b / 10) == Scan(t, 2, 10, false, (b / 10) * 10 + b % 10);
      assert (b / 10) * 10 + b % 10 == b;
    }
  }

  // b#digits reads base b, for every base the evaluator admits.
  lemma {:induction false} StrlongBase(n: nat, b: nat, s: string)
    requires 2 <= b <= 64
    requires Spells(s, Digits(n, b), b)
    ensures Strlong(Dec(b) + "#" + s) == Value(Wrap(n))
  {
    var t := Dec(b) + "#" + s;
    DecSpells(b, 10);
    assert t[0] == Dec(b)[0] != '0';
    ScanBase(b, s);
    assert t[|Dec(b)| + 1..] == s;
    ScanSpelling(t, |Dec(b)| + 1, b, true, 0, Digits(n, b));
    HornerDigits(n, b);
  }

  // ---------- which literals are good ----------

  // The characters of a number, as the lexer cuts it out.
  predicate Numeric(s: string) {
    forall i :: 0 <= i < |s| ==> IsDigitChar(s[i]) || s[i] == '#'
  }

  // Every character is a digit of the base.
  predicate DigitsOf(s: string, base: int) {
    forall i :: 0 <= i < |s| ==> DigitOf(s[i], base)
  }

  predicate DigitOf(c: char, base: int) {
    IsDigitChar(c) && DigitValue(c, base) < base
  }

  // 0x and hexadecimal digits, 0 and octal ones, decimal ones, or a base from 2 to 64 written
  // in decimal, a hash sign and digits of that base.
  ghost predicate Good(s: string) {
    if s != "" && s[0] == '0' then
      if |s| > 1 && (s[1] == 'x' || s[1] == 'X') then DigitsOf(s[2..], 16) else DigitsOf(s[1..], 8)
    else
      || DigitsOf(s, 10)
      || exists p :: 0 <= p < |s| && s[p] == '#' && Based(s, p)
  }

  predicate Based(s: string, p: nat)
    requires p < |s|
  {
    && DigitsOf(s[..p], 10) && Strlong(s[..p]).Value?
    && var b := Strlong(s[..p]).value; 2 <= b <= 64 && DigitsOf(s[p + 1..], b)
  }

  lemma {:induction false} ScanBased(s: string, i: nat, base: int, val: I64)
    requires Numeric(s) && i <= |s|
    ensures Scan(s, i, base, true, val).Value? <==> DigitsOf(s[i..], base)
    decreases |s| - i
  {
    if i < |s| {
      assert s[i..][0] == s[i] && s[i..][1..] == s[i + 1..];
      assert forall k :: 1 <= k < |s[i..]| ==> s[i..][k] == s[i + 1..][k - 1];
      if DigitOf(s[i], base) {
        ScanBased(s, i + 1, base, Wrap(val * base + DigitValue(s[i], base)));
      }
    }
  }

  // Up to a hash sign the scan is that of the text in front of it.
  lemma {:induction false} ScanFront(s: string, i: nat, p: nat, val: I64)
    requires i <= p <= |s| && DigitsOf(s[i..p], 10)
    ensures Scan(s[..p], i, 10, false, val).Value?
    ensures Scan(s, i, 10, false, val) == Scan(s, p, 10, false, Scan(s[..p], i, 10, false, val).value)
    decreases p - i
  {
    if i < p {
      assert s[i..p][0] == s[i] == s[..p][i];
      assert forall k :: 0 < k < p - i ==> s[i..p][k] == s[i + 1..p][k - 1];
      ScanFront(s, i + 1, p, Wrap(val * 10 + DigitValue(s[i], 10)));
    }
  }

  lemma {:induction false} ScanStops(s: string, i: nat, p: nat, val: I64)
    requires i <= p < |s| && DigitsOf(s[i..p], 10) && Numeric(s) && s[p] != '#' && !DigitOf(s[p], 10)
    ensures Scan(s, i, 10, false, val) == BadNumber
  {
    ScanFront(s, i, p, val);
  }

  // The first place where s is not decimal.
  function Decimals(s: string, i: nat): (p: nat)
    requires i <= |s|
    ensures i <= p <= |s| && DigitsOf(s[i..p], 10) && (p < |s| ==> !DigitOf(s[p], 10))
    decreases |s| - i
  {
    if i < |s| && DigitOf(s[i], 10) then
      var p := Decimals(s, i + 1);
      assert forall k :: 0 < k < p - i ==> s[i..p][k] == s[i + 1..p][k - 1];
      p
    else i
  }

  // A literal has a value exactly if it is good.
  lemma StrlongGood(s: string)
    requires Numeric(s)
    ensures Strlong(s).Value? <==> Good(s)
  {
    hide Scan, DigitOf;
    if s != "" && s[0] == '0' {
      if |s| > 1 && (s[1] == 'x' || s[1] == 'X') {
        ScanBased(s, 2, 16, 0);
      } else if |s| > 1 {
        ScanBased(s, 1, 8, 0);
      }
    } else {
      var p := Decimals(s, 0);
      assert s[0..p] == s[..p];
      ScanFront(s, 0, p, 0);
      assert p > 0 ==> s[..p][0] != '0';
      if p == |s| {
        assert s[..p] == s;
      } else {
        NotDecimal(s, p);
        if s[p] == '#' {
          ScanHash(s, p, Scan(s[..p], 0, 10, false, 0).value);
        } else {
          ScanStops(s, 0, p, 0);
        }
      }
    }
  }

  lemma ScanHash(s: string, p: nat, val: I64)
    requires p < |s| && s[p] == '#' && Numeric(s)
    ensures Scan(s, p, 10, false, val).Value? <==> 2 <= val <= 64 && DigitsOf(s[p + 1..], val)
  {
    if 2 <= val <= 64 {
      ScanBased(s, p + 1, val, 0);
    }
  }

  // No other place than the first will do.
  lemma NotDecimal(s: string, p: nat)
    requires p < |s| && DigitsOf(s[..p], 10) && !DigitOf(s[p], 10)
    ensures !DigitsOf(s, 10)
    ensures forall q :: 0 <= q < |s| && s[q] == '#' && DigitsOf(s[..q], 10) ==> q == p
  {
    forall q | 0 <= q < |s| && s[q] == '#' && DigitsOf(s[..q], 10) ensures q == p {
      if q < p {
        DecimalAt(s, q, p);
      } else if p < q {
        DecimalAt(s, p, q);
      }
    }
  }

  lemma DecimalAt(s: string, k: nat, n: nat)
    requires k < n <= |s| && DigitsOf(s[..n], 10)
    ensures DigitOf(s[k], 10)
  {
    assert s[..n][k] == s[k];
  }
}
