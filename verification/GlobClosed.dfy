/** Whether the alternatives of a group are closed under following each other can be found out
    by trying finitely many texts. */
module GlobClosed {
  import opened GlobText
  import opened RegexText
  import opened GlobConvert
  import opened GlobMeaning
  import opened GlobNewlines
  import opened GlobNested

  // The character z is none of the pattern's own.
  predicate Foreign(z: char, l: List<Glob>) {
    l.Cons? ==> l.head != Lit(z, true) && l.head != Lit(z, false) && Foreign(z, l.tail)
  }

  function Row(z: char, n: nat): (s: string)
    ensures |s| == n && forall i :: 0 <= i < n ==> s[i] == z
  {
    seq(n, i => z)
  }

  // A text to try: z for every ?, and up to n of them for every *.
  predicate Trial(l: List<Glob>, s: string, z: char, n: nat) {
    match l
    case Nil => s == ""
    case Cons(Lit(c, _), rest) => s != "" && s[0] == c && Trial(rest, s[1..], z, n)
    case Cons(AnyChar, rest) => s != "" && s[0] == z && Trial(rest, s[1..], z, n)
    case Cons(AnyText, rest) => exists k :: 0 <= k <= |s| && k <= n && s[..k] == Row(z, k) && Trial(rest, s[k..], z, n)
    case Cons(Group(_, _), rest) => false
  }

  function Append(a: List<Glob>, b: List<Glob>): List<Glob> {
    if a.Nil? then b else Cons(a.head, Append(a.tail, b))
  }

  // All texts to try for two alternatives in a row match some alternative.
  ghost predicate Tested(alts: seq<List<Glob>>, z: char, n: nat) {
    forall i, j, s {:trigger Trial(Append(alts[i], alts[j]), s, z, n)} ::
      0 <= i < |alts| && 0 <= j < |alts| && Trial(Append(alts[i], alts[j]), s, z, n) ==> OneMatches(alts, s)
  }

  // z and n are fit for trying.
  predicate Fit(alts: seq<List<Glob>>, z: char, n: nat) {
    z != '\n' && forall i :: 0 <= i < |alts| ==> Foreign(z, alts[i]) && Length(alts[i]) < n
  }

  // ---- what matches a foreign character matches any other ----

  lemma {:induction false} Replaced(p: List<Glob>, a: string, z: char, d: char, b: string)
    requires Flat(p) && Foreign(z, p) && GlobMatches(p, a + [z] + b)
    ensures GlobMatches(p, a + [d] + b)
    decreases p
  {
    hide GlobMatches;
    var s, s' := a + [z] + b, a + [d] + b;
    NotNothing(p, s);
    var j := StepCut(p, s);
    if j <= |a| {
      assert s[j..] == a[j..] + [z] + b && s'[j..] == a[j..] + [d] + b;
      Replaced(p.tail, a[j..], z, d, b);
    } else {
      assert s[j..] == s'[j..];
    }
    StepMatches(p, s', j);
  }

  lemma NotNothing(p: List<Glob>, s: string)
    requires GlobMatches(p, s) && s != ""
    ensures p.Cons?
  {
  }

  lemma {:induction false} RowReplaced(p: List<Glob>, a: string, z: char, y: string, b: string)
    requires Flat(p) && Foreign(z, p) && GlobMatches(p, a + Row(z, |y|) + b)
    ensures GlobMatches(p, a + y + b)
    decreases |y|
  {
    if y == "" {
      assert Row(z, 0) == "";
    } else {
      var row := Row(z, |y| - 1);
      assert a + Row(z, |y|) + b == a + [z] + (row + b);
      Replaced(p, a, z, y[0], row + b);
      assert a + [y[0]] + (row + b) == (a + [y[0]]) + row + b;
      RowReplaced(p, a + [y[0]], z, y[1..], b);
      assert (a + [y[0]]) + y[1..] + b == a + y + b;
    }
  }

  // A row of foreign characters that is longer than the pattern is met by a star, so it may
  // be longer still.
  lemma {:induction false} Pumped(p: List<Glob>, a: string, z: char, n: nat, b: string)
    requires Flat(p) && Foreign(z, p) && n > Length(p) && GlobMatches(p, a + Row(z, n) + b)
    ensures GlobMatches(p, a + Row(z, n + 1) + b)
    decreases p
  {
    hide GlobMatches;
    var s, s' := a + Row(z, n) + b, a + Row(z, n + 1) + b;
    NotNothing(p, s);
    var j := StepCut(p, s);
    var i := j;
    if j <= |a| {
      assert s[j..] == a[j..] + Row(z, n) + b && s'[j..] == a[j..] + Row(z, n + 1) + b;
      Pumped(p.tail, a[j..], z, n, b);
    } else if p.head.AnyText? {
      i := j + 1;
      assert s[j..] == s'[i..];
    } else {
      assert a == "" && s[1..] == a + Row(z, n - 1) + b && s'[1..] == a + Row(z, n) + b;
      Pumped(p.tail, a, z, n - 1, b);
    }
    StepMatches(p, s', i);
  }

  lemma {:induction false} PumpedTo(p: List<Glob>, a: string, z: char, n: nat, m: nat, b: string)
    requires Flat(p) && Foreign(z, p) && m >= n > Length(p) && GlobMatches(p, a + Row(z, n) + b)
    ensures GlobMatches(p, a + Row(z, m) + b)
    decreases m
  {
    if m > n {
      PumpedTo(p, a, z, n, m - 1, b);
      Pumped(p, a, z, m - 1, b);
    }
  }

  // What is taken by a star, written as a row of at most n.
  lemma Stretched(p: List<Glob>, a: string, z: char, n: nat, y: string, b: string)
    requires Flat(p) && Foreign(z, p) && n > Length(p)
    requires GlobMatches(p, a + Row(z, if |y| <= n then |y| else n) + b)
    ensures GlobMatches(p, a + y + b)
  {
    hide GlobMatches;
    if |y| > n {
      PumpedTo(p, a, z, n, |y|, b);
    }
    RowReplaced(p, a, z, y, b);
  }

  // ---- every matched text has one to try in its stead ----

  // Wherever it stands, a short pattern that matches s there matches x.
  ghost predicate Stands(s: string, x: string, z: char, n: nat) {
    forall p, a {:trigger GlobMatches(p, a + s)} ::
      Flat(p) && Foreign(z, p) && Length(p) < n && GlobMatches(p, a + s) ==> GlobMatches(p, a + x)
  }

  lemma {:induction false} HasTrial(l: List<Glob>, x: string, z: char, n: nat) returns (s: string)
    requires Flat(l) && GlobMatches(l, x)
    ensures Trial(l, s, z, n) && Stands(s, x, z, n)
    decreases l
  {
    hide GlobMatches, Stands;
    if l.Nil? {
      s := "";
      NothingStands(l, x, z, n);
    } else {
      var k := StepCut(l, x);
      var rest := HasTrial(l.tail, x[k..], z, n);
      if l.head.AnyText? {
        var m := if k <= n then k else n;
        s := Row(z, m) + rest;
        assert s[..m] == Row(z, m) && s[m..] == rest;
        RowStands(x[..k], rest, x[k..], z, n);
        assert x[..k] + x[k..] == x;
      } else {
        s := [if l.head.Lit? then x[0] else z] + rest;
        assert s[1..] == rest;
        CharStands(s[0], x[0], rest, x[1..], z, n);
        assert [x[0]] + x[1..] == x;
      }
    }
  }

  lemma NothingStands(l: List<Glob>, x: string, z: char, n: nat)
    requires l.Nil? && GlobMatches(l, x)
    ensures Stands("", x, z, n)
  {
    assert x == "";
  }

  lemma CharStands(c: char, d: char, rest: string, x: string, z: char, n: nat)
    requires (c == d || c == z) && Stands(rest, x, z, n)
    ensures Stands([c] + rest, [d] + x, z, n)
  {
    hide GlobMatches;
    forall p, a | Flat(p) && Foreign(z, p) && Length(p) < n && GlobMatches(p, a + ([c] + rest))
      ensures GlobMatches(p, a + ([d] + x))
    {
      assert a + ([c] + rest) == a + [c] + rest;
      if c != d {
        Replaced(p, a, z, d, rest);
      }
      assert a + [d] + rest == (a + [d]) + rest;
      assert GlobMatches(p, (a + [d]) + rest);
      assert a + ([d] + x) == (a + [d]) + x;
    }
  }

  lemma RowStands(y: string, rest: string, x: string, z: char, n: nat)
    requires Stands(rest, x, z, n)
    ensures Stands(Row(z, if |y| <= n then |y| else n) + rest, y + x, z, n)
  {
    hide GlobMatches, Row;
    var row := Row(z, if |y| <= n then |y| else n);
    forall p, a | Flat(p) && Foreign(z, p) && Length(p) < n && GlobMatches(p, a + (row + rest))
      ensures GlobMatches(p, a + (y + x))
    {
      assert a + (row + rest) == a + row + rest;
      Stretched(p, a, z, n, y, rest);
      assert a + y + rest == (a + y) + rest;
      assert GlobMatches(p, (a + y) + rest);
      assert a + (y + x) == (a + y) + x;
    }
  }

  // ---- patterns in a row ----

  lemma {:induction false} AppendMatches(p: List<Glob>, q: List<Glob>, v: string, w: string)
    requires Flat(p) && Flat(q) && GlobMatches(p, v) && GlobMatches(q, w)
    ensures Flat(Append(p, q)) && GlobMatches(Append(p, q), v + w)
    decreases p
  {
    if p.Nil? {
      assert v + w == w;
    } else {
      var k := StepCut(p, v);
      AppendMatches(p.tail, q, v[k..], w);
      assert (v + w)[k..] == v[k..] + w;
      StepMatches(Append(p, q), v + w, k);
    }
  }

  // A text to try is one for each pattern, and matches it.
  lemma {:induction false} TrialCut(p: List<Glob>, q: List<Glob>, s: string, z: char, n: nat) returns (k: nat)
    requires Flat(p) && Formed(p) && Trial(Append(p, q), s, z, n) && z != '\n'
    ensures k <= |s| && GlobMatches(p, s[..k]) && '\n' !in s[..k] && Trial(q, s[k..], z, n)
    decreases p
  {
    hide GlobMatches, Trial;
    if p.Nil? {
      k := 0;
      assert s[0..] == s;
      NothingMatches(p);
    } else {
      var j := 1;
      if p.head.AnyText? {
        j := StarTrial(Append(p, q), s, z, n);
      } else {
        CharTrial(Append(p, q), s, z, n);
      }
      k := TrialCut(p.tail, q, s[j..], z, n);
      assert s[j..][k..] == s[j + k..] && s[j..][..k] == s[..j + k][j..];
      assert s[..j + k] == s[..j] + s[j..][..k];
      k := j + k;
      StepMatches(p, s[..k], j);
    }
  }

  lemma NothingMatches(p: List<Glob>)
    requires p.Nil?
    ensures GlobMatches(p, "")
  {
  }

  lemma StarTrial(l: List<Glob>, s: string, z: char, n: nat) returns (j: nat)
    requires l.Cons? && l.head.AnyText? && Trial(l, s, z, n) && z != '\n'
    ensures j <= |s| && Trial(l.tail, s[j..], z, n) && '\n' !in s[..j]
  {
    j :| 0 <= j <= |s| && j <= n && s[..j] == Row(z, j) && Trial(l.tail, s[j..], z, n);
  }

  lemma CharTrial(l: List<Glob>, s: string, z: char, n: nat)
    requires l.Cons? && FormedOne(l.head) && !l.head.AnyText? && Trial(l, s, z, n) && z != '\n'
    ensures s != "" && Trial(l.tail, s[1..], z, n) && '\n' !in s[..1] && (l.head.Lit? ==> s[0] == l.head.c)
  {
  }

  lemma {:induction false} AppendNil(p: List<Glob>)
    ensures Append(p, Nil) == p
  {
    if p.Cons? {
      AppendNil(p.tail);
    }
  }

  // ---- the theorem ----

  lemma ClosedTested(alts: seq<List<Glob>>, z: char, n: nat)
    requires FormedAlts(alts) && Fit(alts, z, n)
    ensures Closed(alts) <==> Tested(alts, z, n)
  {
    hide GlobMatches, OneMatches, Trial;
    if Closed(alts) {
      forall i, j, s | 0 <= i < |alts| && 0 <= j < |alts| && Trial(Append(alts[i], alts[j]), s, z, n)
        ensures OneMatches(alts, s)
      {
        TrialClosed(alts, i, j, s, z, n);
      }
    }
    if Tested(alts, z, n) {
      forall v, w | '\n' !in v && '\n' !in w ensures Follows(alts, v, w) {
        if OneMatches(alts, v) && OneMatches(alts, w) {
          TestedClosed(alts, v, w, z, n);
        }
      }
    }
  }

  lemma TrialClosed(alts: seq<List<Glob>>, i: nat, j: nat, s: string, z: char, n: nat)
    requires FormedAlts(alts) && Fit(alts, z, n) && Closed(alts) && i < |alts| && j < |alts|
    requires Trial(Append(alts[i], alts[j]), s, z, n)
    ensures OneMatches(alts, s)
  {
    hide GlobMatches, OneMatches, Trial;
    AltFormed(alts, i);
    AltFormed(alts, j);
    var k := TrialCut(alts[i], alts[j], s, z, n);
    AppendNil(alts[j]);
    var v, w := s[..k], s[k..];
    var m := TrialCut(alts[j], Nil, w, z, n);
    TrialNothing(w[m..], z, n);
    assert m == |w| && w[..m] == w;
    MatchesOne(alts, i, v);
    MatchesOne(alts, j, w);
    assert Follows(alts, v, w);
    assert v + w == s;
  }

  lemma TrialNothing(s: string, z: char, n: nat)
    requires Trial(Nil, s, z, n)
    ensures s == ""
  {
  }

  lemma TestedClosed(alts: seq<List<Glob>>, v: string, w: string, z: char, n: nat)
    requires FormedAlts(alts) && Fit(alts, z, n) && Tested(alts, z, n) && OneMatches(alts, v) && OneMatches(alts, w)
    ensures OneMatches(alts, v + w)
  {
    var i := OneMatching(alts, v);
    var j := OneMatching(alts, w);
    hide GlobMatches, OneMatches, Trial;
    AltFormed(alts, i);
    AltFormed(alts, j);
    AppendMatches(alts[i], alts[j], v, w);
    var s := HasTrial(Append(alts[i], alts[j]), v + w, z, n);
    assert OneMatches(alts, s);
    var k := OneMatching(alts, s);
    AltFormed(alts, k);
    assert "" + s == s && "" + (v + w) == v + w;
    assert GlobMatches(alts[k], "" + s);
    MatchesOne(alts, k, v + w);
  }

  lemma OneMatching(alts: seq<List<Glob>>, s: string) returns (i: nat)
    requires OneMatches(alts, s)
    ensures i < |alts| && GlobMatches(alts[i], s)
  {
    i :| 0 <= i < |alts| && GlobMatches(alts[i], s);
  }

  // A group among literals: the conversion keeps the language exactly if the group has no
  // wildcard, or, where it allows none, an alternative is empty or only stars, and, where it
  // allows two, every text to try is matched.
  lemma NestedTested(t: string, u: bool, z: char, n: nat)
    requires ParseGlob(t).Some? && !Active(ParseGlob(t).value) && OneGroup(ParseGlob(t).value)
    requires Fit(GroupIn(ParseGlob(t).value).alts, z, n)
    ensures var g := GroupIn(ParseGlob(t).value);
            KeepsLines(t, u) <==>
              (SomeWild(g.alts) && Counts(g.kind, 0) ==> SomeStars(g.alts)) &&
              (SomeWild(g.alts) && Counts(g.kind, 2) ==> Tested(g.alts, z, n))
  {
    hide Active, KeepsLines, OneGroup, Fit, Tested, Closed;
    var l := ParseGlob(t).value;
    ParsedFormed(t);
    GroupFormed(l);
    NestedExact(t, u);
    ClosedTested(GroupIn(l).alts, z, n);
  }

  lemma {:induction false} GroupFormed(l: List<Glob>)
    requires OneGroup(l) && Formed(l)
    ensures FormedAlts(GroupIn(l).alts)
  {
    if l.head.Lit? {
      GroupFormed(l.tail);
    }
  }
}
