/** mkseq (braces.c): the terms of a sequence expression {start..end..incr}. */
module MkSeq {
  import opened Int64
  import opened Numerals

  datatype Kind = Number | ZeroPadded | Letter

  const INT_MAX: int := 0x7fff_ffff

  // Conversion to C's int.
  function ToInt(x: int): int {
    (x + 0x8000_0000) % 0x1_0000_0000 - 0x8000_0000
  }

  function Zeros(n: int): string
    decreases n
  {
    if n <= 0 then "" else "0" + Zeros(n - 1)
  }

  // "%0*d"; the number has been converted to int before.
  function ZeroPad(n: int, width: int): string {
    if n < 0 then "-" + Zeros(width - 1 - |Dec(-n)|) + Dec(-n) else Zeros(width - |Dec(n)|) + Dec(n)
  }

  function Format(n: I64, kind: Kind, width: int): string {
    match kind
    case Number => Itos(n)
    case ZeroPadded => ZeroPad(ToInt(n), width)
    case Letter => [(n % 256) as char]
  }

  // The increment that is used: 0 counts as 1, and the sign leads from start to end.
  function Step(start: I64, end: I64, incr: I64): int {
    var i := if incr == 0 then 1 else incr;
    if start > end && i > 0 then 0 - i else if start < end && i < 0 then 0 - i else i
  }

  // How many increments fit between start and end.
  function Count(start: I64, end: I64, incr: I64): (n: nat)
    ensures Step(start, end, incr) != 0
  {
    Abs(end - start) / Abs(Step(start, end, incr))
  }

  predicate AddOverflow(a: int, b: int) {
    (a > 0 && b > TWO_63 - 1 - a) || (a < 0 && b < -TWO_63 - a)
  }

  // end - start leaves room for the counts computed from it.
  predicate SubOverflow(end: I64, start: I64) {
    (start > 0 && end < -TWO_63 + 3 + start) || (start < 0 && end > TWO_63 - 3 + start)
  }

  // The vector of terms and the number of elements it was allocated for.
  datatype Sequence = NoSequence | Sequence(terms: seq<string>, nelem: int)

  function Term(start: I64, k: nat, step: int): int { start + k * step }

  ghost predicate Arithmetic(terms: seq<string>, start: I64, end: I64, incr: I64, kind: Kind, width: int) {
    forall k :: 0 <= k < |terms| ==> Nth(terms, k, start, Step(start, end, incr), kind, width)
  }

  ghost predicate Nth(terms: seq<string>, k: nat, start: I64, step: int, kind: Kind, width: int)
    requires k < |terms|
  {
    var n := Term(start, k, step);
    -TWO_63 <= n < TWO_63 && terms[k] == Format(n, kind, width)
  }

  // When no vector comes back.
  predicate Refused(start: I64, end: I64, incr: I64) {
    || (start < end && incr == -TWO_63) || SubOverflow(end, start)
    || AddOverflow(Count(start, end, incr), 1) || ToInt(Count(start, end, incr) + 1) > INT_MAX - 2
  }

  // Unless the bounds are too far apart, the terms are start + k*step for every k up to
  // Count.  The two preconditions exclude the absolute values that C cannot represent.
  method Make(start: I64, end: I64, incr: I64, kind: Kind, width: int) returns (r: Sequence)
    requires incr != -TWO_63 || start < end
    requires !(start == 0 && end == -TWO_63)
    ensures r.NoSequence? <==> Refused(start, end, incr)
    ensures r.Sequence? ==>
              && |r.terms| == Count(start, end, incr) + 1
              && Arithmetic(r.terms, start, end, incr, kind, width)
              && r.nelem == ToInt(Count(start, end, incr) + 1)
              && (|r.terms| <= r.nelem <==> Count(start, end, incr) + 1 <= INT_MAX)
  {
    hide Arithmetic, Nth, ToInt, Abs, Count, AddOverflow, SubOverflow;
    CountIs(start, end, incr);
    var step: int := if incr == 0 then 1 else incr;
    if start > end && step > 0 {
      step := -step;
    } else if start < end && step < 0 {
      if incr == -TWO_63 {
        return NoSequence;
      }
      step := -step;
    }
    if SubOverflow(end, start) {
      return NoSequence;
    }
    var q: nat := Abs(end - start) / Abs(step);
    if AddOverflow(q, 1) {
      return NoSequence;
    }
    var nelem := ToInt(q + 1);
    if nelem > INT_MAX - 2 {
      return NoSequence;
    }
    FitsIff(q);
    var terms := Fill(start, end, step, kind, width);
    AllTerms(terms, start, end, incr, kind, width);
    r := Sequence(terms, nelem);
  }

  lemma CountIs(start: I64, end: I64, incr: I64)
    ensures Abs(Step(start, end, incr)) > 0 && Abs(end - start) >= 0
    ensures Count(start, end, incr) == Abs(end - start) / Abs(Step(start, end, incr))
  {
  }

  lemma AllTerms(terms: seq<string>, start: I64, end: I64, incr: I64, kind: Kind, width: int)
    requires forall k :: 0 <= k < |terms| ==> Nth(terms, k, start, Step(start, end, incr), kind, width)
    ensures Arithmetic(terms, start, end, incr, kind, width)
  {
  }

  // The loop that fills the vector; it ends at the bound, or where the next sum overflows.
  method Fill(start: I64, end: I64, step: int, kind: Kind, width: int) returns (terms: seq<string>)
    requires step != 0 && (start > end ==> step < 0) && (start < end ==> step > 0)
    ensures |terms| == Abs(end - start) / Abs(step) + 1
    ensures forall k :: 0 <= k < |terms| ==> Nth(terms, k, start, step, kind, width)
  {
    ghost var q := Abs(end - start) / Abs(step);
    hide Term, Abs, Format;
    FirstTerm(start, end, step);
    terms := [];
    var n: int := start;
    while true
      invariant |terms| <= q && n == Term(start, |terms|, step) && -TWO_63 <= n < TWO_63
      invariant forall k :: 0 <= k < |terms| ==> Nth(terms, k, start, step, kind, width)
      decreases q - |terms|
    {
      ghost var before, k := terms, |terms|;
      terms := terms + [Format(n, kind, width)];
      forall j | 0 <= j < |terms|
        ensures Nth(terms, j, start, step, kind, width)
      {
        assert j < k ==> Nth(before, j, start, step, kind, width);
      }
      LastTerm(start, end, step, k);
      if AddOverflow(n, step) {
        break;
      }
      n := n + step;
      if (step < 0 && n < end) || (step > 0 && n > end) {
        break;
      }
    }
  }

  // The k-th term is followed by another one exactly if k is less than the count.
  lemma LastTerm(start: I64, end: I64, step: int, k: nat)
    requires step != 0 && (start > end ==> step < 0) && (start < end ==> step > 0)
    requires k <= Abs(end - start) / Abs(step)
    ensures var next := Term(start, k, step) + step;
            && next == Term(start, k + 1, step)
            && (k < Abs(end - start) / Abs(step) <==> !((step < 0 && next < end) || (step > 0 && next > end)))
            && (k < Abs(end - start) / Abs(step) ==> -TWO_63 <= next < TWO_63)
    ensures -TWO_63 <= Term(start, k, step) < TWO_63
  {
    var d, q := Abs(end - start), Abs(end - start) / Abs(step);
    Quotient(d, Abs(step));
    MulMonotonic(k, q, Abs(step));
    NextMultiple(k, Abs(step));
    if k < q {
      MulMonotonic(k + 1, q, Abs(step));
    }
    if step < 0 {
      NegativeMultiple(k, step);
      NegativeMultiple(k + 1, step);
    }
  }

  lemma Quotient(d: nat, s: int)
    requires s > 0
    ensures var q := d / s; q * s <= d < q * s + s
  {
  }

  lemma NextMultiple(k: nat, s: int)
    ensures (k + 1) * s == k * s + s
  {
  }

  lemma NegativeMultiple(k: nat, step: int)
    ensures k * step == -(k * -step)
  {
  }

  lemma FirstTerm(start: I64, end: I64, step: int)
    requires step != 0
    ensures Term(start, 0, step) == start && Abs(end - start) / Abs(step) >= 0
  {
  }

  lemma MulMonotonic(a: nat, b: nat, d: nat)
    requires a <= b
    ensures a * d <= b * d
  {
  }

  // The vector has room for the terms exactly if their number, which is converted to int
  // before it is checked, survives the conversion.
  lemma FitsIff(count: nat)
    ensures count + 1 <= ToInt(count + 1) <==> count + 1 <= INT_MAX
    ensures count + 1 <= INT_MAX - 2 ==> ToInt(count + 1) == count + 1 <= INT_MAX - 2
  {
  }

  // {0..4294967296}: the number of terms, 2^32 + 1, comes out as 1, and is not refused.
  lemma TruncatedCount()
    ensures !Refused(0, 0x1_0000_0000, 1) && Count(0, 0x1_0000_0000, 1) + 1 == 0x1_0000_0001
    ensures ToInt(Count(0, 0x1_0000_0000, 1) + 1) == 1
  {
  }

  // ---- what the terms are ----

  // The increment leads toward the end, by as much as was asked for, or by one.
  lemma StepLeads(start: I64, end: I64, incr: I64)
    ensures var s := Step(start, end, incr);
            && (s == incr || s == 0 - incr || (incr == 0 && (s == 1 || s == -1)))
            && (start < end ==> s > 0) && (start > end ==> s < 0)
  {
  }

  // The last term is between start and end, and one more would be past the end.
  lemma LastIsNearest(start: I64, end: I64, incr: I64)
    ensures var s, n := Step(start, end, incr), Count(start, end, incr);
            && (start < end ==> start <= start + n * s <= end < start + n * s + s)
            && (start > end ==> start >= start + n * s >= end > start + n * s + s)
            && (start == end ==> n == 0)
  {
    hide Abs;
    StepLeads(start, end, incr);
    var s, n := Step(start, end, incr), Count(start, end, incr);
    AbsIs(s);
    AbsIs(end - start);
    if start < end {
      Quotient(end - start, s);
    } else if start > end {
      Quotient(start - end, -s);
      NegativeMultiple(n, s);
    }
  }

  lemma AbsIs(x: int)
    ensures Abs(x) == if x < 0 then -x else x
  {
  }

  // The tests for overflow: of a sum exactly, of a difference with two to spare.
  lemma OverflowTests(a: I64, b: I64)
    ensures AddOverflow(a, b) <==> !(-TWO_63 <= a + b < TWO_63)
    ensures !SubOverflow(a, b) && !(b == 0 && a == -TWO_63) ==> -TWO_63 < a - b < TWO_63
    ensures SubOverflow(a, b) ==> a - b > TWO_63 - 3 || a - b < -TWO_63 + 3
  {
  }

  // Bounds that are near enough are refused exactly if there are more than 2^31 - 3 terms.
  lemma RefusedNear(start: I64, end: I64, incr: I64)
    requires incr != -TWO_63 && Abs(end - start) < TWO_63 - 3 && Count(start, end, incr) < 0x7fff_ffff
    ensures Refused(start, end, incr) <==> Count(start, end, incr) + 1 > 0x7fff_fffd
  {
    hide Count;
    OverflowTests(end, start);
    OverflowTests(Count(start, end, incr), 1);
  }

  // An int has 32 bits.
  lemma IntOf(x: int)
    ensures -0x8000_0000 <= ToInt(x) < 0x8000_0000 && (x - ToInt(x)) % 0x1_0000_0000 == 0
  {
  }

  predicate AllZero(s: string) { forall i :: 0 <= i < |s| ==> s[i] == '0' }

  // A padded number is as wide as was asked for, or wider, the zeros standing behind the sign.
  lemma Padded(n: int, width: int) returns (zeros: string)
    ensures AllZero(zeros) && ZeroPad(n, width) == (if n < 0 then "-" + zeros + Dec(-n) else zeros + Dec(n))
    ensures |ZeroPad(n, width)| == width || (zeros == "" && |ZeroPad(n, width)| > width)
  {
    hide Zeros, Dec;
    var digits := Dec(if n < 0 then -n else n);
    var k := width - |digits| - if n < 0 then 1 else 0;
    ZerosAre(k);
    zeros := Zeros(k);
  }

  lemma {:induction false} ZerosAre(n: int)
    ensures AllZero(Zeros(n)) && |Zeros(n)| == if n < 0 then 0 else n
    decreases n
  {
    if n > 0 {
      ZerosAre(n - 1);
    }
  }

  // A letter is the character with that code.
  lemma LetterOf(n: I64, width: int)
    requires 0 <= n < 256
    ensures Format(n, Letter, width) == [n as char]
  {
  }
}
