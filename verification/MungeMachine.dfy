/** really_munge_braces and its helpers (bracecomp.c) as the loops they are. */
module MungeMachine {
  import opened BraceMunge

  // string_gcd.
  method StringGcd(s1: string, s2: string) returns (i: nat)
    ensures i == Gcd(s1, s2)
  {
    i := 0;
    while i < |s1| && i < |s2|
      invariant i <= |s1| && i <= |s2| && Gcd(s1, s2) == i + Gcd(s1[i..], s2[i..])
    {
      if s1[i] != s2[i] {
        break;
      }
      assert s1[i..][1..] == s1[i + 1..] && s2[i..][1..] == s2[i + 1..];
      i := i + 1;
    }
  }

  // The quoted form of s from i on.
  function QuoteFrom(s: string, i: nat): string
    requires i <= |s|
  {
    if i == 0 then Quote(s) else QuoteTail(s[i..])
  }

  lemma QuoteStep(s: string, i: nat)
    requires i < |s|
    ensures QuoteFrom(s, i) ==
            (if Special(s[i]) || (s[i] == '#' && i == 0) then ['\\', s[i]] else [s[i]]) + QuoteFrom(s, i + 1)
  {
    assert s[i..][1..] == s[i + 1..];
    assert i == 0 ==> s[i..] == s;
  }

  // sh_backslash_quote with the default table and no flags.
  method BackslashQuote(s: string) returns (r: string)
    ensures r == Quote(s)
  {
    hide QuoteFrom, Quote, QuoteTail, Special;
    QuoteEnds(s);
    r := "";
    var i := 0;
    while i < |s|
      invariant i <= |s| && Quote(s) == r + QuoteFrom(s, i)
    {
      QuoteStep(s, i);
      if Special(s[i]) || (s[i] == '#' && i == 0) {
        r := r + ['\\'];
      }
      r := r + [s[i]];
      i := i + 1;
    }
  }

  lemma QuoteEnds(s: string)
    ensures QuoteFrom(s, 0) == Quote(s) && QuoteFrom(s, |s|) == ""
  {
    assert s[|s|..] == "";
  }

  // The words from realStart to realEnd, of which gcdZero characters have been written.
  method ReallyMungeBraces(words: seq<string>, realStart: nat, realEnd: nat, gcdZero: nat) returns (result: string)
    requires words != [] && Ready(words, realStart, realEnd, gcdZero)
    requires realStart == realEnd < |words| ==> |words[realStart]| >= gcdZero
    ensures result == Munge(words, realStart, realEnd, gcdZero)
    decreases Measure(words, gcdZero)
  {
    if realStart == realEnd {
      if realStart < |words| {
        result := BackslashQuote(words[realStart][gcdZero..]);
      } else {
        result := BackslashQuote(words[0]);
      }
      return;
    }
    result := "";
    var flag := false;
    var start := realStart;
    while start < realEnd
      invariant realStart <= start <= realEnd
      invariant start == realStart ==> result == "" && !flag
      invariant start > realStart ==>
        flag == (gcdZero == 0 && GroupEnd(words, realStart, realStart + 1, realEnd, gcdZero) != realEnd)
      invariant Ready(words, start, realEnd, gcdZero)
      invariant start > realStart ==> (if flag then "{" else "") + Terms(words, realStart, realEnd, gcdZero)
                                      == result + Terms(words, start, realEnd, gcdZero)
    {
      hide Terms, Term, GroupEnd;
      var end, subterm := NextTerm(words, start, realEnd, gcdZero);
      if gcdZero == 0 && start == realStart && end != realEnd {
        // at top level, without a prefix common to all
        result := "{";
        flag := true;
      }
      ghost var before := result;
      result := result + subterm + ",";
      Associate(before, subterm, Terms(words, end, realEnd, gcdZero));
      start := end;
    }
    assert Terms(words, realEnd, realEnd, gcdZero) == "" && result + "" == result;
    assert "" + Terms(words, realStart, realEnd, gcdZero) == Terms(words, realStart, realEnd, gcdZero);
    if gcdZero == 0 {
      result := SetLast(result, if flag then "}" else "");
    }
  }

  lemma Associate(a: string, b: string, c: string)
    ensures a + (b + "," + c) == (a + b + ",") + c
  {
  }

  // The next group and the text for it.
  method NextTerm(words: seq<string>, start: nat, realEnd: nat, gcdZero: nat) returns (end: nat, subterm: string)
    requires start < realEnd && Ready(words, start, realEnd, gcdZero)
    ensures start < end <= realEnd && end == GroupEnd(words, start, start + 1, realEnd, gcdZero)
    ensures Ready(words, end, realEnd, gcdZero)
    ensures Terms(words, start, realEnd, gcdZero) == subterm + "," + Terms(words, end, realEnd, gcdZero)
    decreases Measure(words, gcdZero), 1
  {
    var gcd;
    end, gcd := FindGroup(words, start, realEnd, gcdZero);
    ReadyParts(words, start, end, realEnd, gcdZero);
    subterm := OneTerm(words, start, end, gcd, gcdZero);
  }

  // The inner loop: the end of the group that starts at start, and what its words share.
  method FindGroup(words: seq<string>, start: nat, realEnd: nat, gcdZero: nat) returns (end: nat, gcd: nat)
    requires start < realEnd <= |words|
    ensures end == GroupEnd(words, start, start + 1, realEnd, gcdZero)
    ensures gcd == if end == start + 1 then |words[start]| else Gcd(words[start], words[end - 1])
  {
    hide Gcd, GroupEnd;
    gcd := |words[start]|;
    end := start + 1;
    while end < realEnd
      invariant start < end <= realEnd
      invariant GroupEnd(words, start, start + 1, realEnd, gcdZero) == GroupEnd(words, start, end, realEnd, gcdZero)
      invariant gcd == if end == start + 1 then |words[start]| else Gcd(words[start], words[end - 1])
    {
      GroupEndStep(words, start, end, realEnd, gcdZero);
      var temp := StringGcd(words[start], words[end]);
      if temp <= gcdZero {
        break;
      }
      gcd := temp;
      end := end + 1;
    }
    if end == realEnd {
      GroupEndStep(words, start, end, realEnd, gcdZero);
    }
  }

  lemma GroupEndStep(words: seq<string>, start: nat, end: nat, realEnd: nat, gcdZero: nat)
    requires start < end <= realEnd <= |words|
    ensures GroupEnd(words, start, end, realEnd, gcdZero) ==
            if end == realEnd || Gcd(words[start], words[end]) <= gcdZero then end
            else GroupEnd(words, start, end + 1, realEnd, gcdZero)
  {
    hide Gcd;
  }

  // The subterm for the group from start to end.
  method OneTerm(words: seq<string>, start: nat, end: nat, gcd: nat, gcdZero: nat) returns (subterm: string)
    requires start < end && Ready(words, start, end, gcdZero)
    requires end > start + 1 ==> gcd == Gcd(words[start], words[end - 1]) && gcd > gcdZero
    ensures subterm == Term(words, start, end, gcdZero)
    decreases Measure(words, gcdZero), 0
  {
    if start + 1 == end {
      subterm := BackslashQuote(words[start][gcdZero..]);
    } else {
      ReadyDeeper(words, start, end, gcdZero);
      var prefix := BackslashQuote(words[start][gcdZero..gcd]);
      var inner := ReallyMungeBraces(words, start, end, gcd);
      subterm := prefix + "{" + SetLast(inner, "}");
    }
  }
}
