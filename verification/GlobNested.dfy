/** Wildcards inside groups: the code forgets the kind of the group, and when that matters. */
module GlobNested {
  import opened Options
  import opened GlobText
  import opened RegexText
  import opened GlobConvert
  import opened GlobReading
  import opened GlobMeaning
  import opened GlobNewlines

  // ---- one group ----

  predicate AllStars(l: List<Glob>) {
    l.Nil? || (l.head.AnyText? && AllStars(l.tail))
  }

  predicate HasStar(l: List<Glob>) {
    l.Cons? && (l.head.AnyText? || HasStar(l.tail))
  }

  // One of the alternatives matches the empty text.
  predicate SomeStars(alts: seq<List<Glob>>) {
    exists i :: 0 <= i < |alts| && AllStars(alts[i])
  }

  // What two alternatives match one after the other, one alternative matches.
  ghost predicate Closed(alts: seq<List<Glob>>) {
    forall v, w {:trigger Follows(alts, v, w)} :: '\n' !in v && '\n' !in w ==> Follows(alts, v, w)
  }

  ghost predicate Follows(alts: seq<List<Glob>>, v: string, w: string) {
    OneMatches(alts, v) && OneMatches(alts, w) ==> OneMatches(alts, v + w)
  }

  // The group matches the same when it has to match one alternative.
  ghost predicate Survives(g: Glob) {
    g.Group? && SomeWild(g.alts) ==>
      (Counts(g.kind, 0) ==> SomeStars(g.alts)) && (Counts(g.kind, 2) ==> Closed(g.alts))
  }

  lemma {:induction false} MatchesEmpty(l: List<Glob>)
    requires Flat(l)
    ensures GlobMatches(l, "") <==> AllStars(l)
  {
    if l.Cons? {
      MatchesEmpty(l.tail);
      assert ""[0..] == "";
    }
  }

  lemma SomeEmpty(alts: seq<List<Glob>>)
    requires FormedAlts(alts)
    ensures OneMatches(alts, "") <==> SomeStars(alts)
  {
    forall i | 0 <= i < |alts| ensures GlobMatches(alts[i], "") <==> AllStars(alts[i]) {
      AltFormed(alts, i);
      MatchesEmpty(alts[i]);
    }
    if SomeStars(alts) {
      var i :| 0 <= i < |alts| && AllStars(alts[i]);
      MatchesOne(alts, i, "");
    }
    hide AllStars;
  }

  lemma OneIsGroup(alts: seq<List<Glob>>, s: string)
    ensures GroupMatches(ExactlyOne, alts, s) <==> OneMatches(alts, s)
  {
    if OneMatches(alts, s) {
      OneWordMatches(ExactlyOne, alts, s);
    }
    if GroupMatches(ExactlyOne, alts, s) {
      var words: seq<string> :| Counts(ExactlyOne, |words|) && AllMatch(alts, words) && Joined(words) == s;
      assert words[1..] == [] && words[0] + "" == words[0];
      assert Joined(words) == words[0];
      assert OneMatches(alts, words[0]);
    }
  }

  lemma {:induction false} JoinedMatches(alts: seq<List<Glob>>, words: seq<string>)
    requires words != [] && AllMatch(alts, words) && (|words| > 1 ==> Closed(alts)) && '\n' !in Joined(words)
    ensures OneMatches(alts, Joined(words))
    decreases |words|
  {
    hide OneMatches;
    assert OneMatches(alts, words[0]);
    var w, rest := words[0], Joined(words[1..]);
    var s := Joined(words);
    assert s == w + rest;
    if |words| == 1 {
      assert words[1..] == [] && w + "" == w;
    } else {
      assert forall i :: 0 <= i < |words| - 1 ==> words[1..][i] == words[i + 1];
      assert AllMatch(alts, words[1..]);
      assert forall i :: 0 <= i < |w| ==> w[i] == s[i];
      assert forall i :: 0 <= i < |rest| ==> rest[i] == s[|w| + i];
      JoinedMatches(alts, words[1..]);
      assert Follows(alts, w, rest);
    }
  }

  lemma TwoWordsMatch(kind: Kind, alts: seq<List<Glob>>, v: string, w: string)
    requires Counts(kind, 2) && OneMatches(alts, v) && OneMatches(alts, w)
    ensures GroupMatches(kind, alts, v + w)
  {
    hide OneMatches;
    var words := [v, w];
    assert words[1..] == [w] && [w][1..] == [] && w + "" == w;
    assert Joined([w]) == w;
    assert Joined(words) == v + w && AllMatch(alts, words);
  }

  ghost predicate SameAsOne(kind: Kind, alts: seq<List<Glob>>) {
    forall s :: '\n' !in s ==> (GroupMatches(kind, alts, s) <==> OneMatches(alts, s))
  }

  // A group matches the same as one of its alternatives exactly if an alternative is empty or
  // only stars, where the kind allows none, and the alternatives are closed under following
  // each other, where it allows two.
  lemma GroupSurvives(kind: Kind, alts: seq<List<Glob>>)
    requires FormedAlts(alts)
    ensures SameAsOne(kind, alts) <==> (Counts(kind, 0) ==> SomeStars(alts)) && (Counts(kind, 2) ==> Closed(alts))
  {
    hide GlobMatches, OneMatches, GroupMatches, SomeStars;
    SomeEmpty(alts);
    if SameAsOne(kind, alts) {
      if Counts(kind, 0) {
        NoWords(kind, alts);
        assert GroupMatches(kind, alts, "") <==> OneMatches(alts, "");
      }
      if Counts(kind, 2) {
        forall v, w | '\n' !in v && '\n' !in w ensures Follows(alts, v, w) {
          if OneMatches(alts, v) && OneMatches(alts, w) {
            TwoWordsMatch(kind, alts, v, w);
            assert '\n' !in v + w;
          }
        }
      }
    }
    if (Counts(kind, 0) ==> SomeStars(alts)) && (Counts(kind, 2) ==> Closed(alts)) {
      forall s | '\n' !in s ensures GroupMatches(kind, alts, s) <==> OneMatches(alts, s) {
        SurvivesAt(kind, alts, s);
      }
    }
  }

  lemma NoWords(kind: Kind, alts: seq<List<Glob>>)
    requires Counts(kind, 0)
    ensures GroupMatches(kind, alts, "")
  {
    var words: seq<string> := [];
    assert Counts(kind, |words|) && AllMatch(alts, words) && Joined(words) == "";
  }

  lemma SurvivesAt(kind: Kind, alts: seq<List<Glob>>, s: string)
    requires FormedAlts(alts) && '\n' !in s
    requires (Counts(kind, 0) ==> SomeStars(alts)) && (Counts(kind, 2) ==> Closed(alts))
    ensures GroupMatches(kind, alts, s) <==> OneMatches(alts, s)
  {
    hide OneMatches, Closed, AllMatch;
    SomeEmpty(alts);
    if OneMatches(alts, s) {
      OneWordMatches(kind, alts, s);
    }
    if GroupMatches(kind, alts, s) {
      var words: seq<string> :| Counts(kind, |words|) && AllMatch(alts, words) && Joined(words) == s;
      if words != [] {
        JoinedMatches(alts, words);
      }
    }
  }

  // ---- a group with one alternative: the condition can be read off it ----

  // What is matched by a part of a pattern that follows the text before it.
  lemma {:induction false} StarAbsorbs(p: List<Glob>, q: List<Glob>, v: string, w: string)
    requires Flat(p) && HasStar(p) && GlobMatches(p, v) && EndsWith(q, p) && GlobMatches(q, w) && Flat(q)
    ensures GlobMatches(p, v + w)
    decreases p
  {
    var s := v + w;
    EndsWithTail(q, p);
    if p.head.AnyText? {
      var k := Suffixed(q, p.tail, w);
      assert s[|v| + k..] == w[k..];
    } else {
      assert s[1..] == v[1..] + w;
      StarAbsorbs(p.tail, q, v[1..], w);
    }
  }

  predicate EndsWith(q: List<Glob>, p: List<Glob>) {
    q == p || (q.Cons? && EndsWith(q.tail, p))
  }

  lemma {:induction false} EndsWithTail(q: List<Glob>, p: List<Glob>)
    requires EndsWith(q, p) && p.Cons?
    ensures EndsWith(q, p.tail)
  {
    if q != p {
      EndsWithTail(q.tail, p);
    } else {
      assert EndsWith(q.tail, p.tail);
    }
  }

  lemma {:induction false} Suffixed(q: List<Glob>, p: List<Glob>, w: string) returns (k: nat)
    requires Flat(q) && EndsWith(q, p) && GlobMatches(q, w)
    ensures k <= |w| && GlobMatches(p, w[k..])
    decreases q
  {
    hide GlobMatches;
    if q == p {
      k := 0;
      assert w[0..] == w;
    } else {
      var j := StepCut(q, w);
      k := Suffixed(q.tail, p, w[j..]);
      assert w[j..][k..] == w[j + k..];
      k := j + k;
    }
  }

  function Length(l: List<Glob>): nat {
    if l.Nil? then 0 else 1 + Length(l.tail)
  }

  // Without a star all matched texts are as long as the pattern.
  lemma {:induction false} FixedLength(l: List<Glob>, s: string)
    requires Flat(l) && !HasStar(l) && GlobMatches(l, s)
    ensures |s| == Length(l)
    decreases l
  {
    if l.Cons? {
      FixedLength(l.tail, s[1..]);
    }
  }

  // A text without newlines that the pattern matches.
  function Plain(l: List<Glob>): string {
    if l.Nil? then "" else (if l.head.Lit? then [l.head.c] else "x") + Plain(l.tail)
  }

  lemma {:induction false} PlainMatches(l: List<Glob>)
    requires Flat(l) && Formed(l)
    ensures GlobMatches(l, Plain(l)) && '\n' !in Plain(l)
  {
    if l.Cons? {
      PlainMatches(l.tail);
      assert Plain(l)[1..] == Plain(l.tail);
    }
  }

  lemma OneAlternative(p: List<Glob>, s: string)
    ensures OneMatches([p], s) <==> GlobMatches(p, s)
  {
    if OneMatches([p], s) {
      var i :| 0 <= i < |[p]| && GlobMatches([p][i], s);
    }
    if GlobMatches(p, s) {
      MatchesOne([p], 0, s);
    }
  }

  lemma ClosedExact(p: List<Glob>)
    requires Flat(p) && Formed(p)
    ensures Closed([p]) <==> HasStar(p) || p.Nil?
  {
    hide GlobMatches, OneMatches;
    if HasStar(p) {
      forall v, w ensures Follows([p], v, w) {
        OneAlternative(p, v);
        OneAlternative(p, w);
        OneAlternative(p, v + w);
        if GlobMatches(p, v) && GlobMatches(p, w) {
          StarAbsorbs(p, p, v, w);
        }
      }
    } else {
      var v := Plain(p);
      PlainMatches(p);
      FixedLength(p, v);
      OneAlternative(p, v);
      OneAlternative(p, v + v);
      if p.Cons? {
        if GlobMatches(p, v + v) {
          FixedLength(p, v + v);
        }
        assert !Follows([p], v, v);
      } else {
        forall v, w ensures Follows([p], v, w) {
          EmptyPattern(p, v, w);
        }
      }
    }
  }

  lemma EmptyPattern(p: List<Glob>, v: string, w: string)
    requires p.Nil?
    ensures Follows([p], v, w)
  {
    OneAlternative(p, v);
    OneAlternative(p, w);
    OneAlternative(p, v + w);
  }

  // A group of one alternative with a wildcard survives exactly if it is @( ), or +( ) of
  // something with a star, or of nothing but stars.
  lemma OneAlternativeSurvives(kind: Kind, p: List<Glob>)
    requires Flat(p) && Formed(p) && Wild(p)
    ensures Survives(Group(kind, [p])) <==>
              kind == ExactlyOne || (kind == AtLeastOne && HasStar(p)) || AllStars(p)
  {
    hide Closed;
    ClosedExact(p);
    if AllStars(p) {
      StarsAreStars(p);
    }
    assert [p][0] == p;
    assert SomeWild([p]);
    assert SomeStars([p]) <==> AllStars(p);
  }

  lemma {:induction false} StarsAreStars(p: List<Glob>)
    requires AllStars(p) && p.Cons?
    ensures HasStar(p)
  {
  }

  // ---- whole patterns ----

  ghost predicate AllSurvive(l: List<Glob>) {
    l.Cons? ==> Survives(l.head) && AllSurvive(l.tail)
  }

  lemma {:induction false} DemotedAlike(l: List<Glob>, s: string)
    requires Formed(l) && AllSurvive(l) && '\n' !in s
    ensures GlobMatches(l, s) <==> GlobMatches(Demote(l), s)
    decreases l
  {
    if l.Cons? {
      forall k | 0 <= k <= |s| ensures GlobMatches(l.tail, s[k..]) <==> GlobMatches(Demote(l.tail), s[k..]) {
        DemotedAlike(l.tail, s[k..]);
      }
      if l.head.Group? {
        GroupDemotedAlike(l, s);
      }
    }
  }

  lemma GroupDemotedAlike(l: List<Glob>, s: string)
    requires l.Cons? && l.head.Group? && Formed(l) && Survives(l.head) && '\n' !in s
    requires forall k :: 0 <= k <= |s| ==> (GlobMatches(l.tail, s[k..]) <==> GlobMatches(Demote(l.tail), s[k..]))
    ensures GlobMatches(l, s) <==> GlobMatches(Demote(l), s)
  {
    var kind, alts := l.head.kind, l.head.alts;
    var l' := Demote(l);
    assert l'.head.Group? && l'.head.alts == alts && l'.tail == Demote(l.tail);
    forall k | 0 <= k <= |s| ensures GroupMatches(kind, alts, s[..k]) <==> GroupMatches(l'.head.kind, alts, s[..k]) {
      DemotedGroup(l, s[..k]);
    }
    hide GroupMatches, Survives, SomeWild, Formed, Demote;
    if GlobMatches(l, s) {
      var k :| 0 <= k <= |s| && GroupMatches(kind, alts, s[..k]) && GlobMatches(l.tail, s[k..]);
      GroupFirst(l', s, k);
    }
    if GlobMatches(l', s) {
      var k :| 0 <= k <= |s| && GroupMatches(l'.head.kind, alts, s[..k]) && GlobMatches(l'.tail, s[k..]);
      GroupFirst(l, s, k);
    }
  }

  lemma DemotedGroup(l: List<Glob>, s: string)
    requires l.Cons? && l.head.Group? && Formed(l) && Survives(l.head) && '\n' !in s
    ensures GroupMatches(l.head.kind, l.head.alts, s) <==> GroupMatches(DemoteOne(l.head).kind, l.head.alts, s)
  {
    hide GroupMatches, OneMatches, Closed, SomeStars, SomeWild;
    assert FormedOne(l.head);
    if SomeWild(l.head.alts) {
      GroupSurvives(l.head.kind, l.head.alts);
      OneIsGroup(l.head.alts, s);
    }
  }

  lemma {:induction false} DemoteActive(l: List<Glob>)
    ensures Run(Demote(l)) == Run(l) && (Active(Demote(l)) <==> Active(l))
    decreases l
  {
    hide QuantifierAt;
    if l.Cons? {
      DemoteActive(l.tail);
    }
  }

  // The regular expression has the pieces of the pattern, its groups without their kind
  // where they have a wildcard.
  lemma ConvertsPattern(t: string, u: bool)
    requires ParseGlob(t).Some? && !Active(ParseGlob(t).value)
    ensures ParseRegex(Convert(t, '\0', u)) == Some(Pieces(Demote(ParseGlob(t).value)))
  {
    hide Active, Reading, Convert, Pieces, Demote;
    DemoteActive(ParseGlob(t).value);
    ConversionReads(t, u);
    ReadsPieces(Demote(ParseGlob(t).value));
  }

  // Patterns without active characters whose groups survive are converted to regular
  // expressions that match the same texts without newlines, with greedy and lazy quantifiers.
  lemma ConversionKeepsLanguage(t: string, u: bool)
    requires ParseGlob(t).Some? && !Active(ParseGlob(t).value) && AllSurvive(ParseGlob(t).value)
    ensures KeepsLines(t, u)
  {
    hide GlobMatches, RegexMatches, Pieces, Active, Demote, Convert, AllSurvive;
    var l := ParseGlob(t).value;
    ParsedFormed(t);
    ConvertsPattern(t, u);
    forall s | '\n' !in s ensures Agrees(t, u, s) {
      DemotedAlike(l, s);
      SameLanguage(Demote(l), s, true);
    }
  }

  // ---- the exact condition for a group among literals ----

  predicate Literals(l: List<Glob>) {
    l.Cons? ==> l.head.Lit? && Literals(l.tail)
  }

  predicate OneGroup(l: List<Glob>) {
    l.Cons? && ((l.head.Group? && Literals(l.tail)) || (l.head.Lit? && OneGroup(l.tail)))
  }

  function GroupIn(l: List<Glob>): (g: Glob)
    requires OneGroup(l)
    ensures g.Group? && (Formed(l) ==> FormedOne(g))
  {
    if l.head.Group? then l.head else GroupIn(l.tail)
  }

  function Before(l: List<Glob>): string
    requires OneGroup(l)
  {
    if l.head.Group? then "" else [l.head.c] + Before(l.tail)
  }

  function After(l: List<Glob>): string
    requires OneGroup(l)
  {
    if l.head.Group? then Plain(l.tail) else After(l.tail)
  }

  lemma {:induction false} LiteralsMatch(l: List<Glob>, s: string)
    requires Literals(l)
    ensures GlobMatches(l, s) <==> s == Plain(l)
  {
    if l.Cons? && s != [] {
      LiteralsMatch(l.tail, s[1..]);
      assert s == [s[0]] + s[1..];
    }
  }

  // Between its literals the pattern matches what the group does.
  lemma {:induction false} GroupAlone(l: List<Glob>, s: string)
    requires OneGroup(l)
    ensures GlobMatches(l, Before(l) + s + After(l)) <==> GroupMatches(GroupIn(l).kind, GroupIn(l).alts, s)
    decreases l
  {
    var all := Before(l) + s + After(l);
    if l.head.Group? {
      assert all == s + After(l);
      GroupThenLiterals(l, s);
    } else {
      GroupAlone(l.tail, s);
      assert all[1..] == Before(l.tail) + s + After(l.tail);
    }
  }

  lemma GroupThenLiterals(l: List<Glob>, s: string)
    requires l.Cons? && l.head.Group? && Literals(l.tail)
    ensures GlobMatches(l, s + Plain(l.tail)) <==> GroupMatches(l.head.kind, l.head.alts, s)
  {
    var all := s + Plain(l.tail);
    forall k | 0 <= k <= |all| ensures GlobMatches(l.tail, all[k..]) <==> k == |s| {
      LiteralsMatch(l.tail, all[k..]);
      assert all[|s|..] == Plain(l.tail);
    }
    assert all[..|s|] == s;
    hide GroupMatches;
    if GlobMatches(l, all) {
      var k :| 0 <= k <= |all| && GroupMatches(l.head.kind, l.head.alts, all[..k]) && GlobMatches(l.tail, all[k..]);
    }
    if GroupMatches(l.head.kind, l.head.alts, s) {
      GroupFirst(l, all, |s|);
    }
  }

  lemma {:induction false} DemoteGroup(l: List<Glob>)
    requires OneGroup(l)
    ensures OneGroup(Demote(l)) && GroupIn(Demote(l)) == DemoteOne(GroupIn(l))
    ensures Before(Demote(l)) == Before(l) && After(Demote(l)) == After(l)
  {
    if l.head.Lit? {
      DemoteGroup(l.tail);
    } else {
      DemoteLiterals(l.tail);
    }
  }

  lemma {:induction false} DemoteLiterals(l: List<Glob>)
    requires Literals(l)
    ensures Demote(l) == l
  {
    if l.Cons? {
      DemoteLiterals(l.tail);
    }
  }

  lemma {:induction false} PlainNoNewline(l: List<Glob>)
    requires Formed(l) && Literals(l)
    ensures '\n' !in Plain(l)
  {
    if l.Cons? {
      PlainNoNewline(l.tail);
    }
  }

  lemma {:induction false} NoNewlines(l: List<Glob>)
    requires Formed(l) && OneGroup(l)
    ensures '\n' !in Before(l) && '\n' !in After(l)
  {
    if l.head.Group? {
      PlainNoNewline(l.tail);
    } else {
      NoNewlines(l.tail);
    }
  }

  // A group among literals: the conversion keeps the language exactly if the group survives.
  lemma NestedExact(t: string, u: bool)
    requires ParseGlob(t).Some? && !Active(ParseGlob(t).value) && OneGroup(ParseGlob(t).value)
    ensures KeepsLines(t, u) <==> Survives(GroupIn(ParseGlob(t).value))
  {
    hide GlobMatches, RegexMatches, Pieces, Active, Demote, Convert, GroupMatches, Survives;
    var l := ParseGlob(t).value;
    var g := GroupIn(l);
    ParsedFormed(t);
    if Survives(g) {
      OnlyGroup(l);
      ConversionKeepsLanguage(t, u);
    }
    if KeepsLines(t, u) {
      ConvertsPattern(t, u);
      DemoteGroup(l);
      NoNewlines(l);
      forall s | '\n' !in s ensures GroupMatches(g.kind, g.alts, s) <==> GroupMatches(DemoteOne(g).kind, g.alts, s) {
        var all := Before(l) + s + After(l);
        assert Agrees(t, u, all);
        GroupAlone(l, s);
        GroupAlone(Demote(l), s);
        SameLanguage(Demote(l), all, true);
      }
      SurvivesIf(g);
    }
  }

  lemma {:induction false} OnlyGroup(l: List<Glob>)
    requires OneGroup(l) && Survives(GroupIn(l))
    ensures AllSurvive(l)
  {
    hide Survives;
    if l.head.Lit? {
      LitSurvives(l.head);
      OnlyGroup(l.tail);
    } else {
      LiteralsSurvive(l.tail);
    }
  }

  lemma LitSurvives(g: Glob)
    requires g.Lit?
    ensures Survives(g)
  {
  }

  lemma {:induction false} LiteralsSurvive(l: List<Glob>)
    requires Literals(l)
    ensures AllSurvive(l)
  {
    if l.Cons? {
      LiteralsSurvive(l.tail);
    }
  }

  lemma SurvivesIf(g: Glob)
    requires g.Group? && FormedOne(g)
    requires forall s :: '\n' !in s ==>
               (GroupMatches(g.kind, g.alts, s) <==> GroupMatches(DemoteOne(g).kind, g.alts, s))
    ensures Survives(g)
  {
    if SomeWild(g.alts) {
      hide GroupMatches, Closed, SomeStars, OneMatches, SomeWild;
      forall s | '\n' !in s ensures GroupMatches(g.kind, g.alts, s) <==> OneMatches(g.alts, s) {
        OneIsGroup(g.alts, s);
      }
      GroupSurvives(g.kind, g.alts);
    }
  }
}
