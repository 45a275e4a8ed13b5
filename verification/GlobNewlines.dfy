/** The conversion of shell patterns on texts with newlines, which a dot does not match. */
module GlobNewlines {
  import opened Options
  import opened GlobText
  import opened RegexText
  import opened GlobConvert
  import opened GlobReading

  // The converted pattern is a regular expression that matches s exactly if the pattern does.
  ghost predicate Agrees(t: string, u: bool, s: string)
    requires ParseGlob(t).Some?
  {
    var r := ParseRegex(Convert(t, '\0', u));
    r.Some? && (GlobMatches(ParseGlob(t).value, s) <==> RegexMatches(r.value, s, true))
  }

  // The conversion keeps what the pattern matches among texts without newlines ...
  ghost predicate KeepsLines(t: string, u: bool)
    requires ParseGlob(t).Some?
  {
    forall s :: '\n' !in s ==> Agrees(t, u, s)
  }

  // ... and among all texts.
  ghost predicate KeepsAll(t: string, u: bool)
    requires ParseGlob(t).Some?
  {
    forall s :: Agrees(t, u, s)
  }

  // Wildcards, in groups too.
  predicate Wildcards(l: List<Glob>) {
    l.Cons? && (l.head.AnyChar? || l.head.AnyText? || (l.head.Group? && SomeWild(l.head.alts)) || Wildcards(l.tail))
  }

  // ---- no regular expression that is read matches a newline ----

  predicate Visible(ps: List<Piece>)
    decreases ps, 1
  {
    ps.Cons? ==> VisibleAtom(ps.head.atom) && Visible(ps.tail)
  }

  predicate VisibleAtom(a: Atom)
    decreases a, 0
  {
    match a
    case Char(c) => c != '\n'
    case Choice(alts) => forall i :: 0 <= i < |alts| ==> Visible(alts[i])
    case _ => true
  }

  lemma {:induction false} RegexNoNewline(ps: List<Piece>, s: string, start: bool)
    requires Visible(ps) && RegexMatches(ps, s, start)
    ensures '\n' !in s
    decreases ps, 2, 0
  {
    if ps.Cons? {
      var k :| 0 <= k <= |s| && Repeats(ps.head, s[..k], start) && RegexMatches(ps.tail, s[k..], start && k == 0);
      RepeatsNoNewline(ps.head, s[..k], start);
      RegexNoNewline(ps.tail, s[k..], start && k == 0);
      assert s == s[..k] + s[k..];
    }
  }

  lemma {:induction false} RepeatsNoNewline(p: Piece, s: string, start: bool)
    requires VisibleAtom(p.atom) && Repeats(p, s, start)
    ensures '\n' !in s
    decreases p.atom, 1, |s| + p.times.lo
  {
    if s != [] {
      var k :| 0 <= k <= |s| && OneMore(p, s, start, k);
      AtomNoNewline(p.atom, s[..k], start);
      RepeatsNoNewline(Piece(p.atom, Fewer(p.times)), s[k..], start && k == 0);
      assert s == s[..k] + s[k..];
    }
  }

  lemma {:induction false} AtomNoNewline(a: Atom, s: string, start: bool)
    requires VisibleAtom(a) && AtomMatches(a, s, start)
    ensures '\n' !in s
    decreases a, 0, 0
  {
    if a.Choice? {
      var i :| 0 <= i < |a.alts| && RegexMatches(a.alts[i], s, start);
      RegexNoNewline(a.alts[i], s, start);
    }
  }

  lemma {:induction false} ReadingVisible(l: List<Glob>)
    requires Formed(l) && Reading(l).Some?
    ensures Visible(Reading(l).value)
    decreases l, 0
  {
    hide Run, QuantifierAt, Drop, Reading;
    if l.Nil? {
      ReadsNothing();
    } else {
      ReadingStep(l);
      AtomVisible(l.head);
      var q := QuantifierAt(Run(l.tail));
      if !Quantified(l.head) && q.Quantifier? {
        DropFormed(l.tail, q.size);
        ReadingVisible(Drop(l.tail, q.size));
      } else {
        ReadingVisible(l.tail);
      }
    }
  }

  lemma ReadsNothing()
    ensures Reading(Nil) == Some(Nil)
  {
  }

  lemma {:induction false} AtomVisible(g: Glob)
    requires FormedOne(g) && AtomFor(g).Some?
    ensures VisibleAtom(AtomFor(g).value)
    decreases g, 1
  {
    if g.Group? {
      AllVisible(g.alts);
    }
  }

  lemma {:induction false} AllVisible(alts: seq<List<Glob>>)
    requires FormedAlts(alts) && ReadAll(alts).Some?
    ensures forall i :: 0 <= i < |alts| ==> Visible(ReadAll(alts).value[i])
    decreases alts, 1
  {
    hide Reading, Visible, Formed, Flat;
    if alts != [] {
      ReadingVisible(alts[0]);
      AllVisible(alts[1..]);
    }
  }

  // ---- a pattern matches a newline exactly with a wildcard ----

  lemma {:induction false} FlatNoNewline(l: List<Glob>, s: string)
    requires Formed(l) && Flat(l) && !Wild(l) && GlobMatches(l, s)
    ensures '\n' !in s
    decreases l
  {
    if l.Cons? {
      FlatNoNewline(l.tail, s[1..]);
    }
  }

  lemma {:induction false} WordsNoNewline(alts: seq<List<Glob>>, words: seq<string>)
    requires FormedAlts(alts) && !SomeWild(alts) && AllMatch(alts, words)
    ensures '\n' !in Joined(words)
    decreases |words|
  {
    hide GlobMatches, Formed, Flat, Wild;
    if words != [] {
      assert OneMatches(alts, words[0]);
      var i :| 0 <= i < |alts| && GlobMatches(alts[i], words[0]);
      FlatNoNewline(alts[i], words[0]);
      assert forall j :: 0 <= j < |words| - 1 ==> words[1..][j] == words[j + 1];
      assert AllMatch(alts, words[1..]);
      WordsNoNewline(alts, words[1..]);
    }
  }

  lemma {:induction false} GlobNoNewline(l: List<Glob>, s: string)
    requires Formed(l) && !Wildcards(l) && GlobMatches(l, s)
    ensures '\n' !in s
    decreases l
  {
    if l.Cons? {
      if l.head.Group? {
        var k :| 0 <= k <= |s| && GroupMatches(l.head.kind, l.head.alts, s[..k]) && GlobMatches(l.tail, s[k..]);
        var words: seq<string> :| Counts(l.head.kind, |words|) && AllMatch(l.head.alts, words) &&
            Joined(words) == s[..k];
        WordsNoNewline(l.head.alts, words);
        GlobNoNewline(l.tail, s[k..]);
        assert s == s[..k] + s[k..];
      } else {
        GlobNoNewline(l.tail, s[1..]);
      }
    }
  }

  // A text that the pattern matches, with a newline for every wildcard; in a group, the
  // first alternative that has one.
  function Sample(l: List<Glob>): string
    decreases l, 0
  {
    if l.Nil? then "" else SampleOne(l.head) + Sample(l.tail)
  }

  function SampleOne(g: Glob): string
    decreases g, 1
  {
    match g
    case Lit(c, _) => [c]
    case Group(_, alts) => if alts == [] then "" else Sample(alts[Chosen(alts)])
    case _ => "\n"
  }

  function Chosen(alts: seq<List<Glob>>): (i: nat)
    requires alts != []
    ensures i < |alts| && (SomeWild(alts) ==> Wild(alts[i]))
  {
    if |alts| == 1 || Wild(alts[0]) then 0
    else
      assert SomeWild(alts) ==> exists i :: 0 <= i < |alts| - 1 && Wild(alts[1..][i]) by {
        if SomeWild(alts) {
          var i :| 0 <= i < |alts| && Wild(alts[i]);
          assert alts[1..][i - 1] == alts[i];
        }
      }
      1 + Chosen(alts[1..])
  }

  lemma {:induction false} SampleMatches(l: List<Glob>)
    requires Formed(l)
    ensures GlobMatches(l, Sample(l)) && (Wildcards(l) ==> '\n' in Sample(l))
    decreases l, 0
  {
    if l.Cons? {
      SampleMatches(l.tail);
      if l.head.Group? {
        GroupSampled(l);
      } else {
        var w, rest := SampleOne(l.head), Sample(l.tail);
        assert (w + rest)[1..] == rest;
      }
    }
  }

  lemma {:induction false} GroupSampled(l: List<Glob>)
    requires l.Cons? && l.head.Group? && Formed(l)
    requires GlobMatches(l.tail, Sample(l.tail)) && (Wildcards(l.tail) ==> '\n' in Sample(l.tail))
    ensures GlobMatches(l, Sample(l)) && (Wildcards(l) ==> '\n' in Sample(l))
    decreases l.head, 1
  {
    hide GlobMatches, Formed, SomeWild, GroupMatches, OneMatches;
    var alts := l.head.alts;
    AltsFormed(l);
    var i := Chosen(alts);
    SampleMatches(alts[i]);
    FlatWildcards(alts[i]);
    var w, rest := Sample(alts[i]), Sample(l.tail);
    var s := w + rest;
    assert Sample(l) == s && s[..|w|] == w && s[|w|..] == rest;
    MatchesOne(alts, i, w);
    OneWordMatches(l.head.kind, alts, w);
    GroupFirst(l, s, |w|);
  }

  lemma AltsFormed(l: List<Glob>)
    requires l.Cons? && l.head.Group? && Formed(l)
    ensures l.head.alts != [] && forall i :: 0 <= i < |l.head.alts| ==> Formed(l.head.alts[i]) && Flat(l.head.alts[i])
  {
    forall i | 0 <= i < |l.head.alts| ensures Formed(l.head.alts[i]) && Flat(l.head.alts[i]) {
      AltFormed(l.head.alts, i);
    }
  }

  lemma AltFormed(alts: seq<List<Glob>>, i: nat)
    requires FormedAlts(alts) && i < |alts|
    ensures Formed(alts[i]) && Flat(alts[i])
  {
  }

  lemma MatchesOne(alts: seq<List<Glob>>, i: nat, w: string)
    requires i < |alts| && GlobMatches(alts[i], w)
    ensures OneMatches(alts, w)
  {
    assert 0 <= i < |alts| && GlobMatches(alts[i], w);
  }

  lemma GroupFirst(l: List<Glob>, s: string, k: nat)
    requires l.Cons? && l.head.Group? && k <= |s|
    requires GroupMatches(l.head.kind, l.head.alts, s[..k]) && GlobMatches(l.tail, s[k..])
    ensures GlobMatches(l, s)
  {
    hide GroupMatches;
  }

  lemma {:induction false} FlatWildcards(l: List<Glob>)
    requires Flat(l)
    ensures Wildcards(l) <==> Wild(l)
  {
    if l.Cons? {
      FlatWildcards(l.tail);
    }
  }

  lemma OneWordMatches(kind: Kind, alts: seq<List<Glob>>, w: string)
    requires OneMatches(alts, w)
    ensures GroupMatches(kind, alts, w)
  {
    hide OneMatches;
    var words := [w];
    assert words[1..] == [] && w + "" == w;
    assert Joined(words) == w;
    assert AllMatch(alts, words) && Counts(kind, |words|);
  }

  // For every pattern: texts with newlines are matched alike, too, exactly if the pattern has
  // no wildcard.
  lemma NewlinesExact(t: string, u: bool)
    requires ParseGlob(t).Some?
    ensures KeepsAll(t, u) <==> KeepsLines(t, u) && !Wildcards(ParseGlob(t).value)
  {
    hide GlobMatches, RegexMatches, Convert, Reading, Wildcards, Sample;
    var l := ParseGlob(t).value;
    ParsedFormed(t);
    ConversionReads(t, u);
    DemoteFormed(l);
    var r := Reading(Demote(l));
    if r.Some? {
      ReadingVisible(Demote(l));
      forall s | '\n' in s ensures !RegexMatches(r.value, s, true) {
        if RegexMatches(r.value, s, true) {
          RegexNoNewline(r.value, s, true);
        }
      }
    }
    if Wildcards(l) {
      SampleMatches(l);
      assert !Agrees(t, u, Sample(l));
    } else if KeepsLines(t, u) {
      assert Agrees(t, u, "");
      forall s ensures Agrees(t, u, s) {
        if '\n' in s && GlobMatches(l, s) {
          GlobNoNewline(l, s);
        }
      }
    }
  }
}
