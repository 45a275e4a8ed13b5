/** Where the conversion of shell patterns keeps what they match: patterns without active
    characters, and newlines. */
module GlobMeaning {
  import opened Options
  import opened GlobText
  import opened RegexText
  import opened GlobConvert
  import opened GlobReading

  // ---- patterns whose characters are all literals to Python ----

  // l begins with an unprotected dot, caret, plus sign or brace quantifier.
  predicate ActiveHere(l: List<Glob>) {
    || QuantifierAt(Run(l)) != NoQuantifier
    || (l.Cons? && l.head.Lit? && !l.head.escaped && AtomOf(l.head.c) != Char(l.head.c))
  }

  predicate Active(l: List<Glob>)
    decreases l, 0
  {
    l.Cons? && (ActiveHere(l) || (l.head.Group? && SomeActive(l.head.alts)) || Active(l.tail))
  }

  predicate SomeActive(alts: seq<List<Glob>>)
    decreases alts, 0
  {
    exists i :: 0 <= i < |alts| && Active(alts[i])
  }

  function PieceOf(g: Glob): Piece
    decreases g, 1
  {
    match g
    case Lit(c, _) => Piece(Char(c), ONCE)
    case AnyChar => Piece(Dot, ONCE)
    case AnyText => Piece(Dot, TimesOf(AnyNumber))
    case Group(kind, alts) => Piece(Choice(PiecesOf(alts)), TimesOf(kind))
  }

  function Pieces(l: List<Glob>): List<Piece>
    decreases l, 0
  {
    if l.Nil? then Nil else Cons(PieceOf(l.head), Pieces(l.tail))
  }

  function PiecesOf(alts: seq<List<Glob>>): (r: seq<List<Piece>>)
    ensures |r| == |alts| && forall i :: 0 <= i < |alts| ==> r[i] == Pieces(alts[i])
    decreases alts, 0
  {
    if alts == [] then [] else [Pieces(alts[0])] + PiecesOf(alts[1..])
  }

  // Without active characters Python reads the pieces of the pattern.
  lemma {:induction false} ReadsPieces(l: List<Glob>)
    requires !Active(l)
    ensures Reading(l) == Some(Pieces(l))
    decreases l, 1
  {
    if l.Cons? {
      ReadsPieces(l.tail);
      ReadsPiece(l);
      ReadingStep(l);
      hide Reading, AtomFor, Run, PieceOf, QuantifierAt;
      InactiveRun(l.tail);
    }
  }

  lemma InactiveRun(l: List<Glob>)
    requires !Active(l)
    ensures QuantifierAt(Run(l)) == NoQuantifier
  {
  }

  lemma {:induction false} ReadsPiece(l: List<Glob>)
    requires l.Cons? && !Active(l)
    ensures AtomFor(l.head) == Some(PieceOf(l.head).atom) && QuantifierAt(Run(l)) == NoQuantifier
    ensures PieceOf(l.head).times ==
            if l.head.Group? then TimesOf(l.head.kind) else if l.head.AnyText? then TimesOf(AnyNumber) else ONCE
    decreases l.head, 2
  {
    if l.head.Group? {
      ReadsAll(l.head.alts);
    }
  }

  lemma {:induction false} ReadsAll(alts: seq<List<Glob>>)
    requires !SomeActive(alts)
    ensures ReadAll(alts) == Some(PiecesOf(alts))
    decreases alts, 1
  {
    hide Active, Reading, Pieces;
    if alts != [] {
      assert !Active(alts[0]);
      assert forall i :: 0 <= i < |alts[1..]| ==> alts[1..][i] == alts[i + 1];
      ReadsPieces(alts[0]);
      ReadsAll(alts[1..]);
    }
  }

  // ---- and they match what the pattern does ----

  predicate InTimes(times: Times, n: nat) {
    times.lo <= n && (times.hi.Some? ==> n <= times.hi.value)
  }

  lemma KindTimes(kind: Kind, n: nat)
    ensures Counts(kind, n) <==> InTimes(TimesOf(kind), n)
  {
  }

  // The atom matches what one of the alternatives does, wherever it stands.
  ghost predicate Alike(a: Atom, alts: seq<List<Glob>>) {
    forall w, start :: '\n' !in w ==> (AtomMatches(a, w, start) <==> OneMatches(alts, w))
  }

  lemma {:induction false} WordsRepeat(p: Piece, alts: seq<List<Glob>>, words: seq<string>, start: bool)
    requires Alike(p.atom, alts) && AllMatch(alts, words) && InTimes(p.times, |words|) && '\n' !in Joined(words)
    ensures Repeats(p, Joined(words), start)
    decreases |words|
  {
    hide AtomMatches, OneMatches;
    if words != [] {
      var w, rest, s := words[0], Joined(words[1..]), Joined(words);
      assert s == w + rest;
      assert forall i :: 0 <= i < |words| - 1 ==> words[1..][i] == words[i + 1];
      assert AllMatch(alts, words[1..]);
      assert s[..|w|] == w && s[|w|..] == rest;
      assert forall i :: 0 <= i < |w| ==> w[i] == s[i];
      assert forall i :: 0 <= i < |rest| ==> rest[i] == s[|w| + i];
      if w == [] && p.times.lo == 0 {
        assert s == rest;
        WordsRepeat(p, alts, words[1..], start);
      } else {
        WordsRepeat(Piece(p.atom, Fewer(p.times)), alts, words[1..], start && |w| == 0);
        assert OneMatches(alts, words[0]);
        assert OneMore(p, s, start, |w|);
      }
    }
  }

  lemma {:induction false} RepeatWords(p: Piece, alts: seq<List<Glob>>, s: string, start: bool)
    returns (words: seq<string>)
    requires Alike(p.atom, alts) && '\n' !in s && Repeats(p, s, start)
    ensures AllMatch(alts, words) && InTimes(p.times, |words|) && Joined(words) == s
    decreases |s| + p.times.lo
  {
    hide AtomMatches, OneMatches;
    if s == [] && p.times.lo == 0 {
      words := [];
    } else {
      var k :| 0 <= k <= |s| && OneMore(p, s, start, k);
      var rest := RepeatWords(Piece(p.atom, Fewer(p.times)), alts, s[k..], start && k == 0);
      words := [s[..k]] + rest;
      assert words[1..] == rest && s == s[..k] + s[k..];
      assert AtomMatches(p.atom, s[..k], start) && '\n' !in s[..k];
      assert OneMatches(alts, s[..k]);
      assert forall i :: 0 < i < |words| ==> words[i] == rest[i - 1];
    }
  }

  // A group matches the words it allows, as often as its kind says, exactly if the repeated
  // choice does.
  lemma GroupIsPiece(kind: Kind, alts: seq<List<Glob>>, a: Atom, s: string, start: bool)
    requires Alike(a, alts) && '\n' !in s
    ensures GroupMatches(kind, alts, s) <==> Repeats(Piece(a, TimesOf(kind)), s, start)
  {
    var p := Piece(a, TimesOf(kind));
    hide Repeats, AtomMatches, AllMatch;
    if GroupMatches(kind, alts, s) {
      var words: seq<string> :| Counts(kind, |words|) && AllMatch(alts, words) && Joined(words) == s;
      KindTimes(kind, |words|);
      WordsRepeat(p, alts, words, start);
    }
    if Repeats(p, s, start) {
      var words := RepeatWords(p, alts, s, start);
      KindTimes(kind, |words|);
    }
  }

  lemma RepeatsMore(p: Piece, s: string, start: bool) returns (k: nat)
    requires Repeats(p, s, start) && !(s == [] && p.times.lo == 0)
    ensures k <= |s| && OneMore(p, s, start, k)
  {
    k :| 0 <= k <= |s| && OneMore(p, s, start, k);
  }

  lemma OnceIs(a: Atom, s: string, start: bool)
    ensures Repeats(Piece(a, ONCE), s, start) <==> AtomMatches(a, s, start)
  {
    var p := Piece(a, ONCE);
    var none := Piece(a, Times(0, Some(0)));
    assert Fewer(ONCE) == Times(0, Some(0));
    assert s[..|s|] == s && s[|s|..] == [];
    if AtomMatches(a, s, start) {
      assert Repeats(none, s[|s|..], start && |s| == 0);
      assert OneMore(p, s, start, |s|);
    }
    if Repeats(p, s, start) {
      var k := RepeatsMore(p, s, start);
      assert Repeats(none, s[k..], start && k == 0);
      assert s[k..] == [];
      assert k == |s|;
    }
  }

  lemma {:induction false} DotsMatch(s: string, start: bool)
    requires '\n' !in s
    ensures Repeats(Piece(Dot, TimesOf(AnyNumber)), s, start)
    decreases |s|
  {
    if s != [] {
      DotsMatch(s[1..], false);
      assert Fewer(TimesOf(AnyNumber)) == TimesOf(AnyNumber);
      assert OneMore(Piece(Dot, TimesOf(AnyNumber)), s, start, 1);
    }
  }

  lemma {:induction false} SameLanguage(l: List<Glob>, s: string, start: bool)
    requires '\n' !in s
    ensures GlobMatches(l, s) <==> RegexMatches(Pieces(l), s, start)
    decreases l, 1
  {
    if l.Cons? {
      forall k, b | 0 <= k <= |s| ensures GlobMatches(l.tail, s[k..]) <==> RegexMatches(Pieces(l.tail), s[k..], b) {
        SameLanguage(l.tail, s[k..], b);
      }
      hide GlobMatches, RegexMatches, Pieces, Repeats, GroupMatches;
      assert SameBehind(l.tail, s);
      if l.head.Group? {
        AlikeChoice(l.head.alts);
        SameGroup(l, s, start);
      } else if l.head.AnyText? {
        SameText(l, s, start);
      } else {
        SameChar(l, s, start);
      }
    }
  }

  ghost predicate SameBehind(rest: List<Glob>, s: string) {
    forall k, b {:trigger RegexMatches(Pieces(rest), s[k..], b)} :: 0 <= k <= |s| ==>
      (GlobMatches(rest, s[k..]) <==> RegexMatches(Pieces(rest), s[k..], b))
  }

  lemma {:induction false} AlikeChoice(alts: seq<List<Glob>>)
    ensures Alike(Choice(PiecesOf(alts)), alts)
    decreases alts, 0
  {
    forall w, start | '\n' !in w
      ensures AtomMatches(Choice(PiecesOf(alts)), w, start) <==> OneMatches(alts, w)
    {
      forall i | 0 <= i < |alts| ensures GlobMatches(alts[i], w) <==> RegexMatches(PiecesOf(alts)[i], w, start) {
        SameLanguage(alts[i], w, start);
      }
      hide GlobMatches, RegexMatches;
    }
  }

  lemma SameGroup(l: List<Glob>, s: string, start: bool)
    requires l.Cons? && l.head.Group? && SameBehind(l.tail, s) && '\n' !in s &&
             Alike(Choice(PiecesOf(l.head.alts)), l.head.alts)
    ensures GlobMatches(l, s) <==> RegexMatches(Pieces(l), s, start)
  {
    var a := Choice(PiecesOf(l.head.alts));
    var p := Piece(a, TimesOf(l.head.kind));
    forall k | 0 <= k <= |s|
      ensures GroupMatches(l.head.kind, l.head.alts, s[..k]) <==> Repeats(p, s[..k], start)
    {
      GroupIsPiece(l.head.kind, l.head.alts, a, s[..k], start);
    }
    hide Repeats, GroupMatches, Alike, TimesOf;
    assert Pieces(l) == Cons(p, Pieces(l.tail));
    if GlobMatches(l, s) {
      var k :| 0 <= k <= |s| && GroupMatches(l.head.kind, l.head.alts, s[..k]) && GlobMatches(l.tail, s[k..]);
      assert RegexMatches(Pieces(l.tail), s[k..], start && k == 0);
    }
    if RegexMatches(Pieces(l), s, start) {
      var k :| 0 <= k <= |s| && Repeats(p, s[..k], start) && RegexMatches(Pieces(l.tail), s[k..], start && k == 0);
      assert GlobMatches(l.tail, s[k..]);
    }
  }

  lemma SameText(l: List<Glob>, s: string, start: bool)
    requires l.Cons? && l.head.AnyText? && SameBehind(l.tail, s) && '\n' !in s
    ensures GlobMatches(l, s) <==> RegexMatches(Pieces(l), s, start)
  {
    var p := Piece(Dot, TimesOf(AnyNumber));
    forall k | 0 <= k <= |s| ensures Repeats(p, s[..k], start) {
      DotsMatch(s[..k], start);
    }
    hide Repeats, TimesOf;
    assert Pieces(l) == Cons(p, Pieces(l.tail));
    if GlobMatches(l, s) {
      var k :| 0 <= k <= |s| && GlobMatches(l.tail, s[k..]);
      assert RegexMatches(Pieces(l.tail), s[k..], start && k == 0);
    }
    if RegexMatches(Pieces(l), s, start) {
      var k :| 0 <= k <= |s| && Repeats(p, s[..k], start) && RegexMatches(Pieces(l.tail), s[k..], start && k == 0);
      assert GlobMatches(l.tail, s[k..]);
    }
  }

  lemma SameChar(l: List<Glob>, s: string, start: bool)
    requires l.Cons? && (l.head.Lit? || l.head.AnyChar?) && SameBehind(l.tail, s) && '\n' !in s
    ensures GlobMatches(l, s) <==> RegexMatches(Pieces(l), s, start)
  {
    var a := if l.head.Lit? then Char(l.head.c) else Dot;
    var p := Piece(a, ONCE);
    forall k | 0 <= k <= |s| ensures Repeats(p, s[..k], start) <==> k == 1 && (l.head.Lit? ==> s[0] == l.head.c) {
      OnceIs(a, s[..k], start);
    }
    hide Repeats;
    assert Pieces(l) == Cons(p, Pieces(l.tail));
    if GlobMatches(l, s) {
      assert Repeats(p, s[..1], start);
      assert RegexMatches(Pieces(l.tail), s[1..], start && 1 == 0);
    }
    if RegexMatches(Pieces(l), s, start) {
      var k :| 0 <= k <= |s| && Repeats(p, s[..k], start) && RegexMatches(Pieces(l.tail), s[k..], start && k == 0);
      assert k == 1;
      assert GlobMatches(l.tail, s[1..]);
    }
  }
}
