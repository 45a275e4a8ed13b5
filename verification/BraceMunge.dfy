/** The inverse of brace expansion (bracecomp.c): a sorted list of words becomes one brace
    expression by factoring out common prefixes, and expanding it gives the words back. */
module BraceMunge {
  import opened BraceText
  import opened BraceTree

  // ---------- sh_backslash_quote ----------

  predicate Special(c: char) { c in " \t\n!\"$&'()*,;<>?[\\]^`{|}" }

  function QuoteTail(s: string): string {
    if s == "" then "" else (if Special(s[0]) then ['\\', s[0]] else [s[0]]) + QuoteTail(s[1..])
  }

  // A leading # is protected as well.
  function Quote(s: string): string {
    if s != "" && s[0] == '#' then "\\#" + QuoteTail(s[1..]) else QuoteTail(s)
  }

  // Quote removal: a backslash goes and the character it protects stays.
  function Unquote(s: string): string {
    if s == "" then ""
    else if s[0] == '\\' && |s| >= 2 then [s[1]] + Unquote(s[2..])
    else [s[0]] + Unquote(s[1..])
  }

  function UnquoteAll(xs: seq<string>): (r: seq<string>)
    ensures |r| == |xs|
  {
    seq(|xs|, i requires 0 <= i < |xs| => Unquote(xs[i]))
  }

  predicate NulFree(s: string) { '\0' !in s }

  lemma {:induction false} QuoteTailInert(s: string)
    requires NulFree(s)
    ensures Inert(QuoteTail(s)) && Unquote(QuoteTail(s)) == s
    decreases |s|
  {
    if s == "" {
    } else {
      QuoteTailInert(s[1..]);
      var q := if Special(s[0]) then ['\\', s[0]] else [s[0]];
      assert QuoteTail(s)[|q|..] == QuoteTail(s[1..]);
    }
  }

  // Quoted text is inert, and quote removal undoes quoting.
  lemma QuoteInert(s: string)
    requires NulFree(s)
    ensures Inert(Quote(s)) && Unquote(Quote(s)) == s
  {
    QuoteTailInert(s);
    if s != "" && s[0] == '#' {
      QuoteTailInert(s[1..]);
      assert Quote(s)[2..] == QuoteTail(s[1..]);
    }
  }

  // What means something to the shell: blanks, operators, quotes, expansions, patterns, braces
  // and history.
  predicate Meaningful(c: char) {
    || c == ' ' || c == '\t' || c == '\n'
    || c == '|' || c == '&' || c == ';' || c == '(' || c == ')' || c == '<' || c == '>'
    || c == '\\' || c == '\'' || c == '"' || c == '$' || c == '`'
    || c == '*' || c == '?' || c == '[' || c == ']'
    || c == '{' || c == '}' || c == ',' || c == '!' || c == '^'
  }

  // Exactly these are protected, each by a backslash, and the hash sign at the beginning; all
  // others are left alone.
  lemma {:induction false} ProtectsMeaningful(s: string, c: char)
    ensures Quote("") == ""
    ensures Quote(s + [c]) == Quote(s) + if Meaningful(c) || (s == "" && c == '#') then ['\\', c] else [c]
  {
    if s == "" {
      assert s + [c] == [c] && [c][1..] == "";
    } else if s[0] == '#' {
      assert (s + [c])[1..] == s[1..] + [c];
      TailAppend(s[1..], c);
    } else {
      TailAppend(s, c);
    }
  }

  lemma {:induction false} TailAppend(s: string, c: char)
    ensures QuoteTail(s + [c]) == QuoteTail(s) + if Meaningful(c) then ['\\', c] else [c]
  {
    if s == "" {
      assert s + [c] == [c] && [c][1..] == "";
    } else {
      assert (s + [c])[1..] == s[1..] + [c];
      TailAppend(s[1..], c);
    }
  }

  lemma {:induction false} UnquoteConcat(a: string, b: string)
    requires Paired(a)
    ensures Unquote(a + b) == Unquote(a) + Unquote(b)
    decreases |a|
  {
    if a == "" {
      assert a + b == b;
    } else if a[0] == '\\' {
      UnquoteConcat(a[2..], b);
      assert (a + b)[2..] == a[2..] + b;
    } else {
      UnquoteConcat(a[1..], b);
      assert (a + b)[1..] == a[1..] + b;
    }
  }

  // ---------- common prefixes of sorted words ----------

  // string_gcd: the length of the greatest common prefix.
  function Gcd(x: string, y: string): (n: nat)
    ensures n <= |x| && n <= |y| && x[..n] == y[..n]
    ensures n < |x| && n < |y| ==> x[n] != y[n]
  {
    if x == "" || y == "" || x[0] != y[0] then 0
    else
      var n := Gcd(x[1..], y[1..]);
      assert x[..n + 1] == [x[0]] + x[1..][..n] && y[..n + 1] == [y[0]] + y[1..][..n];
      n + 1
  }

  // The order the words are sorted in, strcmp's.
  predicate Leq(x: string, y: string) {
    x == "" || (y != "" && (x[0] < y[0] || (x[0] == y[0] && Leq(x[1..], y[1..]))))
  }

  // Between two sorted words no word shares less with the first than the last one does.
  lemma {:induction false} GcdBetween(x: string, y: string, z: string)
    requires Leq(x, y) && Leq(y, z)
    ensures Gcd(x, z) <= Gcd(x, y)
    decreases |x|
  {
    if x != "" && z != "" && x[0] == z[0] {
      GcdBetween(x[1..], y[1..], z[1..]);
    }
  }

  ghost predicate Sorted(a: seq<string>, lo: nat, hi: nat)
    requires lo <= hi <= |a|
  {
    forall i, j :: lo <= i < j < hi ==> Leq(a[i], a[j])
  }

  // The words from lo to hi are sorted, free of NULs, and agree in their first g characters.
  ghost predicate Ready(a: seq<string>, lo: nat, hi: nat, g: nat) {
    && lo <= hi <= |a| && Sorted(a, lo, hi)
    && (forall k :: lo <= k < hi ==> NulFree(a[k]) && |a[k]| >= g)
    && (forall k :: lo <= k < hi ==> a[k][..g] == a[lo][..g])
  }

  function MaxLen(a: seq<string>): (n: nat)
    ensures forall k :: 0 <= k < |a| ==> |a[k]| <= n
  {
    if a == [] then 0
    else
      var m := MaxLen(a[1..]);
      assert forall k :: 1 <= k < |a| ==> a[k] == a[1..][k - 1];
      if |a[0]| > m then |a[0]| else m
  }

  // Where the group that starts at s ends: before the first word that shares no more than
  // g characters with a[s].
  function GroupEnd(a: seq<string>, s: nat, e: nat, hi: nat, g: nat): (r: nat)
    requires s < e <= hi <= |a|
    ensures e <= r <= hi
    ensures forall k :: e <= k < r ==> Gcd(a[s], a[k]) > g
    ensures r < hi ==> Gcd(a[s], a[r]) <= g
    decreases hi - e
  {
    if e < hi && Gcd(a[s], a[e]) > g then GroupEnd(a, s, e + 1, hi, g) else e
  }

  lemma ReadyParts(a: seq<string>, s: nat, e: nat, hi: nat, g: nat)
    requires Ready(a, s, hi, g) && s <= e <= hi
    ensures Ready(a, s, e, g) && Ready(a, e, hi, g)
  {
  }

  // The words of a group agree as far as its first and last word do.
  lemma ReadyDeeper(a: seq<string>, s: nat, e: nat, g: nat)
    requires s + 1 < e && Ready(a, s, e, g)
    ensures Ready(a, s, e, Gcd(a[s], a[e - 1]))
  {
    var gcd := Gcd(a[s], a[e - 1]);
    forall k | s <= k < e
      ensures |a[k]| >= gcd && a[k][..gcd] == a[s][..gcd]
    {
      if s < k < e - 1 {
        GcdBetween(a[s], a[k], a[e - 1]);
        var n := Gcd(a[s], a[k]);
        assert a[k][..gcd] == a[k][..n][..gcd] && a[s][..gcd] == a[s][..n][..gcd];
      }
    }
  }

  // ---------- what really_munge_braces builds ----------

  function Measure(a: seq<string>, g: nat): nat { if MaxLen(a) > g then MaxLen(a) - g else 0 }

  // The text for the words from s to hi behind their first g characters, each followed by
  // a separator.
  function Terms(a: seq<string>, s: nat, hi: nat, g: nat): string
    requires Ready(a, s, hi, g)
    decreases Measure(a, g), hi - s, 1
  {
    if s == hi then ""
    else
      var e := GroupEnd(a, s, s + 1, hi, g);
      ReadyParts(a, s, e, hi, g);
      Term(a, s, e, g) + "," + Terms(a, e, hi, g)
  }

  function Term(a: seq<string>, s: nat, e: nat, g: nat): string
    requires s < e && Ready(a, s, e, g)
    requires e > s + 1 ==> Gcd(a[s], a[e - 1]) > g
    decreases Measure(a, g), e - s, 0
  {
    if e == s + 1 then Quote(a[s][g..])
    else
      var gcd := Gcd(a[s], a[e - 1]);
      ReadyDeeper(a, s, e, g);
      Quote(a[s][g..gcd]) + "{" + SetLast(Terms(a, s, e, gcd), "}")
  }

  // Overwrite the last character.
  function SetLast(s: string, c: string): string {
    if s == "" then "" else s[..|s| - 1] + c
  }

  function Munge(a: seq<string>, lo: nat, hi: nat, g: nat): string
    requires a != [] && Ready(a, lo, hi, g) && (lo == hi < |a| ==> |a[lo]| >= g)
  {
    if lo == hi then Quote(if lo < |a| then a[lo][g..] else a[0])
    else if g > 0 then Terms(a, lo, hi, g)
    else if GroupEnd(a, lo, lo + 1, hi, g) != hi then SetLast("{" + Terms(a, lo, hi, g), "}")
    else SetLast(Terms(a, lo, hi, g), "")
  }

  // ---------- the brace expression behind it ----------

  function AltsOf(a: seq<string>, s: nat, hi: nat, g: nat): seq<Tree>
    requires Ready(a, s, hi, g)
    decreases Measure(a, g), hi - s, 1
  {
    if s == hi then []
    else
      var e := GroupEnd(a, s, s + 1, hi, g);
      ReadyParts(a, s, e, hi, g);
      [AltOf(a, s, e, g)] + AltsOf(a, e, hi, g)
  }

  function AltOf(a: seq<string>, s: nat, e: nat, g: nat): Tree
    requires s < e && Ready(a, s, e, g)
    requires e > s + 1 ==> Gcd(a[s], a[e - 1]) > g
    decreases Measure(a, g), e - s, 0
  {
    if e == s + 1 then Cons(Lit(Quote(a[s][g..])), Nil)
    else
      var gcd := Gcd(a[s], a[e - 1]);
      ReadyDeeper(a, s, e, g);
      Cons(Lit(Quote(a[s][g..gcd])), Cons(Group(AltsOf(a, s, e, gcd)), Nil))
  }

  // The range strictly splits: the last word of a group never joins the first one's subgroup.
  lemma {:induction false} Splits(a: seq<string>, s: nat, e: nat, g: nat)
    requires s + 1 < e && Ready(a, s, e, g) && g >= Gcd(a[s], a[e - 1])
    ensures GroupEnd(a, s, s + 1, e, g) < e
    ensures |AltsOf(a, s, e, g)| >= 2
  {
    var m := GroupEnd(a, s, s + 1, e, g);
    ReadyParts(a, s, m, e, g);
    assert AltsOf(a, m, e, g) != [];
  }

  // ---------- text and tree agree ----------

  lemma {:induction false} TermsPrint(a: seq<string>, s: nat, hi: nat, g: nat)
    requires s < hi && Ready(a, s, hi, g)
    ensures Terms(a, s, hi, g) == PrintAlts(AltsOf(a, s, hi, g)) + ","
    ensures AltsOf(a, s, hi, g) != []
    decreases Measure(a, g), hi - s, 1
  {
    hide Print, PrintAlts, Term, AltOf, Gcd, Quote;
    var e := GroupEnd(a, s, s + 1, hi, g);
    ReadyParts(a, s, e, hi, g);
    TermPrint(a, s, e, g);
    var alt, more := AltOf(a, s, e, g), AltsOf(a, e, hi, g);
    assert AltsOf(a, s, hi, g) == [alt] + more;
    if e == hi {
      assert more == [] && [alt] + more == [alt];
      AltsOne([alt]);
      assert Term(a, s, e, g) + "," + "" == Term(a, s, e, g) + ",";
    } else {
      TermsPrint(a, e, hi, g);
      assert ([alt] + more)[1..] == more;
      AltsMore([alt] + more);
      hide Terms, AltsOf;
      assert (Print(alt) + ",") + (PrintAlts(more) + ",") == ((Print(alt) + ",") + PrintAlts(more)) + ",";
    }
  }

  lemma {:induction false} TermPrint(a: seq<string>, s: nat, e: nat, g: nat)
    requires s < e && Ready(a, s, e, g)
    requires e > s + 1 ==> Gcd(a[s], a[e - 1]) > g
    ensures Term(a, s, e, g) == Print(AltOf(a, s, e, g))
    decreases Measure(a, g), e - s, 0
  {
    hide Gcd, Quote, Terms, AltsOf, GroupEnd;
    if e == s + 1 {
      PrintOne(Quote(a[s][g..]));
    } else {
      var gcd := Gcd(a[s], a[e - 1]);
      ReadyDeeper(a, s, e, g);
      TermsPrint(a, s, e, gcd);
      SetLastChar(PrintAlts(AltsOf(a, s, e, gcd)), "}");
      PrintTwo(Quote(a[s][g..gcd]), AltsOf(a, s, e, gcd));
    }
  }

  lemma PrintOne(q: string)
    ensures Print(Cons(Lit(q), Nil)) == q
  {
    assert q + "" == q;
  }

  lemma PrintTwo(q: string, alts: seq<Tree>)
    ensures Print(Cons(Lit(q), Cons(Group(alts), Nil))) == q + "{" + (PrintAlts(alts) + "}")
  {
    hide PrintAlts;
    PrintBraces(alts);
    assert q + ("{" + (PrintAlts(alts) + "}")) == q + "{" + (PrintAlts(alts) + "}");
  }

  lemma PrintBraces(alts: seq<Tree>)
    ensures Print(Cons(Group(alts), Nil)) == "{" + (PrintAlts(alts) + "}")
  {
    hide PrintAlts;
    var w := PrintAlts(alts);
    assert ("{" + w + "}") + "" == "{" + (w + "}");
  }

  lemma SetLastChar(s: string, c: string)
    ensures SetLast(s + ",", c) == s + c
  {
    assert (s + ",")[..|s|] == s;
  }

  lemma {:induction false} AltsProper(a: seq<string>, s: nat, hi: nat, g: nat)
    requires Ready(a, s, hi, g)
    ensures ProperAlts(AltsOf(a, s, hi, g))
    decreases Measure(a, g), hi - s, 1
  {
    hide Gcd, AltOf, Proper;
    if s < hi {
      var e := GroupEnd(a, s, s + 1, hi, g);
      ReadyParts(a, s, e, hi, g);
      AltProper(a, s, e, g);
      AltsProper(a, e, hi, g);
      assert ([AltOf(a, s, e, g)] + AltsOf(a, e, hi, g))[1..] == AltsOf(a, e, hi, g);
    }
  }

  lemma {:induction false} AltProper(a: seq<string>, s: nat, e: nat, g: nat)
    requires s < e && Ready(a, s, e, g)
    requires e > s + 1 ==> Gcd(a[s], a[e - 1]) > g
    ensures Proper(AltOf(a, s, e, g))
    decreases Measure(a, g), e - s, 0
  {
    hide Gcd, AltsOf, Quote;
    if e == s + 1 {
      QuoteInert(a[s][g..]);
      ProperTwo(Quote(a[s][g..]), []);
    } else {
      var gcd := Gcd(a[s], a[e - 1]);
      ReadyDeeper(a, s, e, g);
      Splits(a, s, e, gcd);
      AltsProper(a, s, e, gcd);
      QuoteInert(a[s][g..gcd]);
      ProperTwo(Quote(a[s][g..gcd]), AltsOf(a, s, e, gcd));
    }
  }

  lemma ProperTwo(q: string, alts: seq<Tree>)
    requires Inert(q) && ProperAlts(alts)
    ensures Proper(Cons(Lit(q), Nil))
    ensures |alts| >= 2 ==> Proper(Cons(Lit(q), Cons(Group(alts), Nil)))
  {
    hide ProperAlts, InertIn;
    assert ProperItem(Lit(q)) && Proper(Nil);
    if |alts| >= 2 {
      assert ProperItem(Group(alts));
      assert Proper(Cons(Group(alts), Nil));
    }
  }

  // ---------- the expression expands to the words ----------

  function Suffixes(a: seq<string>, s: nat, hi: nat, g: nat): (r: seq<string>)
    requires Ready(a, s, hi, g)
    ensures |r| == hi - s
    ensures forall k :: 0 <= k < hi - s ==> r[k] == a[s + k][g..]
  {
    seq(hi - s, k requires 0 <= k < hi - s => a[s + k][g..])
  }

  lemma UnquoteAllConcat(xs: seq<string>, ys: seq<string>)
    ensures UnquoteAll(xs + ys) == UnquoteAll(xs) + UnquoteAll(ys)
  {
  }

  lemma {:induction false} AltsMeaning(a: seq<string>, s: nat, hi: nat, g: nat, st: SeqTerm)
    requires Ready(a, s, hi, g)
    ensures UnquoteAll(ExpandAlts(AltsOf(a, s, hi, g), st)) == Suffixes(a, s, hi, g)
    decreases Measure(a, g), hi - s, 1
  {
    hide Gcd, AltOf, Expand, Unquote, UnquoteAll, Suffixes;
    if s < hi {
      var e := GroupEnd(a, s, s + 1, hi, g);
      ReadyParts(a, s, e, hi, g);
      AltMeaning(a, s, e, g, st);
      AltsMeaning(a, e, hi, g, st);
      var alt, more := AltOf(a, s, e, g), AltsOf(a, e, hi, g);
      assert ([alt] + more)[1..] == more;
      UnquoteAllConcat(Expand(alt, st), ExpandAlts(more, st));
      assert Suffixes(a, s, hi, g) == Suffixes(a, s, e, g) + Suffixes(a, e, hi, g);
    }
  }

  lemma {:induction false} AltMeaning(a: seq<string>, s: nat, e: nat, g: nat, st: SeqTerm)
    requires s < e && Ready(a, s, e, g)
    requires e > s + 1 ==> Gcd(a[s], a[e - 1]) > g
    ensures UnquoteAll(Expand(AltOf(a, s, e, g), st)) == Suffixes(a, s, e, g)
    decreases Measure(a, g), e - s, 0
  {
    hide Gcd, AltsOf, Quote, Unquote, GroupEnd;
    if e == s + 1 {
      var q := Quote(a[s][g..]);
      QuoteInert(a[s][g..]);
      ExpandOne(q, st);
    } else {
      var gcd := Gcd(a[s], a[e - 1]);
      ReadyDeeper(a, s, e, g);
      var p, q := a[s][g..gcd], Quote(a[s][g..gcd]);
      QuoteInert(p);
      AltsMeaning(a, s, e, gcd, st);
      var xs := ExpandAlts(AltsOf(a, s, e, gcd), st);
      ExpandTwo(q, AltsOf(a, s, e, gcd), st);
      hide Expand, ExpandAlts;
      UnquotePrefixed(q, p, xs);
      forall k | 0 <= k < e - s
        ensures (p + UnquoteAll(xs)[k]) == a[s + k][g..]
      {
        assert a[s + k][..gcd] == a[s][..gcd];
        assert p == a[s + k][g..gcd] by { assert a[s + k][..gcd][g..] == a[s][..gcd][g..]; }
      }
    }
  }

  lemma ExpandOne(q: string, st: SeqTerm)
    ensures Expand(Cons(Lit(q), Nil), st) == [q]
  {
    ProductNeutral([q]);
  }

  lemma ExpandTwo(q: string, alts: seq<Tree>, st: SeqTerm)
    ensures Expand(Cons(Lit(q), Cons(Group(alts), Nil)), st) == Prefixed(q, ExpandAlts(alts, st))
  {
    hide ExpandAlts;
    ExpandBraces(alts, st);
    ProductOne(q, ExpandAlts(alts, st));
  }

  lemma ExpandBraces(alts: seq<Tree>, st: SeqTerm)
    ensures Expand(Cons(Group(alts), Nil), st) == ExpandAlts(alts, st)
  {
    hide ExpandAlts;
    ProductNeutral(ExpandAlts(alts, st));
  }

  lemma UnquotePrefixed(q: string, p: string, xs: seq<string>)
    requires Inert(q) && Unquote(q) == p
    ensures |UnquoteAll(Prefixed(q, xs))| == |xs|
    ensures forall k :: 0 <= k < |xs| ==> UnquoteAll(Prefixed(q, xs))[k] == p + UnquoteAll(xs)[k]
  {
    hide Unquote;
    InertPaired(q, '\0');
    hide InertIn, Paired;
    forall k | 0 <= k < |xs|
      ensures UnquoteAll(Prefixed(q, xs))[k] == p + UnquoteAll(xs)[k]
    {
      UnquoteConcat(q, xs[k]);
    }
  }

  // The tree whose print is the whole text.
  function TopTree(a: seq<string>, lo: nat, hi: nat): Tree
    requires lo < hi && Ready(a, lo, hi, 0)
  {
    var alts := AltsOf(a, lo, hi, 0);
    if GroupEnd(a, lo, lo + 1, hi, 0) == hi then alts[0] else Cons(Group(alts), Nil)
  }

  lemma TopPrint(a: seq<string>, lo: nat, hi: nat, st: SeqTerm)
    requires lo < hi && Ready(a, lo, hi, 0)
    ensures Munge(a, lo, hi, 0) == Print(TopTree(a, lo, hi))
    ensures Proper(TopTree(a, lo, hi))
    ensures Expand(TopTree(a, lo, hi), st) == ExpandAlts(AltsOf(a, lo, hi, 0), st)
  {
    var alts, e := AltsOf(a, lo, hi, 0), GroupEnd(a, lo, lo + 1, hi, 0);
    TermsPrint(a, lo, hi, 0);
    AltsProper(a, lo, hi, 0);
    ReadyParts(a, lo, e, hi, 0);
    if e == hi {
      OneGroup(a, lo, hi);
      hide Print, PrintAlts, Terms, AltsOf, GroupEnd, Expand, ExpandAlts, Proper;
      AltsOne(alts);
      SetLastChar(PrintAlts(alts), "");
      assert PrintAlts(alts) + "" == PrintAlts(alts);
    } else {
      ManyGroups(a, lo, hi);
      PrintBraces(alts);
      ExpandBraces(alts, st);
      hide Print, PrintAlts, Terms, AltsOf, GroupEnd, Expand, ExpandAlts;
      assert "{" + (PrintAlts(alts) + ",") == ("{" + PrintAlts(alts)) + ",";
      SetLastChar("{" + PrintAlts(alts), "}");
      assert ("{" + PrintAlts(alts)) + "}" == "{" + (PrintAlts(alts) + "}");
    }
  }

  lemma OneGroup(a: seq<string>, lo: nat, hi: nat)
    requires lo < hi && Ready(a, lo, hi, 0) && GroupEnd(a, lo, lo + 1, hi, 0) == hi
    ensures |AltsOf(a, lo, hi, 0)| == 1 && (ProperAlts(AltsOf(a, lo, hi, 0)) ==> Proper(AltsOf(a, lo, hi, 0)[0]))
  {
    hide AltOf, Proper;
    assert AltsOf(a, hi, hi, 0) == [];
  }

  lemma ManyGroups(a: seq<string>, lo: nat, hi: nat)
    requires lo < hi && Ready(a, lo, hi, 0) && GroupEnd(a, lo, lo + 1, hi, 0) < hi
    ensures |AltsOf(a, lo, hi, 0)| >= 2
  {
    var e := GroupEnd(a, lo, lo + 1, hi, 0);
    ReadyParts(a, lo, e, hi, 0);
    assert AltsOf(a, e, hi, 0) != [];
  }

  // Round trip: for every sorted list of words, expanding what really_munge_braces makes of
  // it and removing the quoting gives exactly the words, in order.
  lemma {:induction false} RoundTrip(words: seq<string>, lo: nat, hi: nat, st: SeqTerm)
    requires lo < hi && Ready(words, lo, hi, 0)
    ensures UnquoteAll(BraceExpand(Munge(words, lo, hi, 0), st)) == words[lo..hi]
  {
    hide Munge, BraceExpand, TopTree, Proper, AltsOf, Expand, ExpandAlts;
    TopPrint(words, lo, hi, st);
    ExpandsPrintedTree(TopTree(words, lo, hi), st);
    AltsMeaning(words, lo, hi, 0, st);
    var r := Suffixes(words, lo, hi, 0);
    forall k | 0 <= k < hi - lo
      ensures r[k] == words[lo..hi][k]
    {
      assert words[lo + k][0..] == words[lo + k];
    }
  }
}
