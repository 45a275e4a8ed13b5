/** What bracecomp.c is for: in the brace expression it builds no two alternatives of a group
    begin alike, so every common beginning has been taken out in front. */
module BraceFactored {
  import opened Options
  import opened BraceText
  import opened BraceTree
  import opened BraceMunge

  predicate BeginApart(v: string, w: string) { v == "" || w == "" || v[0] != w[0] }

  predicate AllApart(vs: seq<string>, ws: seq<string>) {
    forall i, j :: 0 <= i < |vs| && 0 <= j < |ws| ==> BeginApart(vs[i], ws[j])
  }

  // No word that one alternative stands for begins like one that a later one stands for.
  predicate ApartAlts(alts: seq<Tree>, st: SeqTerm) {
    alts != [] ==>
      && AllApart(UnquoteAll(Expand(alts[0], st)), UnquoteAll(ExpandAlts(alts[1..], st)))
      && ApartAlts(alts[1..], st)
  }

  // So it is in every group of the tree.
  predicate Factored(t: Tree, st: SeqTerm)
    decreases t, 1
  {
    t.Cons? ==> (t.first.Group? ==> FactoredAlts(t.first.alts, st)) && Factored(t.rest, st)
  }

  predicate FactoredAlts(alts: seq<Tree>, st: SeqTerm)
    decreases alts, 2
  {
    ApartAlts(alts, st) && EachFactored(alts, st)
  }

  predicate EachFactored(alts: seq<Tree>, st: SeqTerm)
    decreases alts, 1
  {
    forall i :: 0 <= i < |alts| ==> Factored(alts[i], st)
  }

  // Words that agree in one more character share that much.
  lemma GcdMore(x: string, y: string, g: nat)
    requires |x| > g && |y| > g && x[..g] == y[..g] && x[g] == y[g]
    ensures Gcd(x, y) > g
  {
    forall i | 0 <= i < g ensures x[i] == y[i] {
      assert x[..g][i] == y[..g][i];
    }
  }

  lemma GcdAgree(x: string, y: string, g: nat)
    requires Gcd(x, y) > g
    ensures |x| > g && |y| > g && x[g] == y[g]
  {
    var n := Gcd(x, y);
    assert x[..n][g] == y[..n][g];
  }

  // A word of a group and one behind it do not go on alike.
  lemma GroupsApart(a: seq<string>, s: nat, hi: nat, g: nat, k: nat, l: nat)
    requires s < hi && Ready(a, s, hi, g) && s <= k < GroupEnd(a, s, s + 1, hi, g) <= l < hi
    ensures BeginApart(a[k][g..], a[l][g..])
  {
    hide Leq, Gcd;
    var e := GroupEnd(a, s, s + 1, hi, g);
    if |a[k]| > g && |a[l]| > g && a[k][g] == a[l][g] {
      assert a[k][..g] == a[s][..g] == a[l][..g] == a[e][..g];
      GcdMore(a[k], a[l], g);
      if e < l {
        GcdBetween(a[k], a[e], a[l]);
      }
      GcdAgree(a[k], a[e], g);
      if s < k {
        GcdAgree(a[s], a[k], g);
      }
      GcdMore(a[s], a[e], g);
    }
  }

  lemma {:induction false} AltsFactored(a: seq<string>, s: nat, hi: nat, g: nat, st: SeqTerm)
    requires Ready(a, s, hi, g)
    ensures FactoredAlts(AltsOf(a, s, hi, g), st)
    decreases Measure(a, g), hi - s, 1
  {
    hide Gcd, AltOf, Expand, ExpandAlts, Factored, UnquoteAll, Suffixes, AllApart;
    if s < hi {
      var e := GroupEnd(a, s, s + 1, hi, g);
      ReadyParts(a, s, e, hi, g);
      var alt, more := AltOf(a, s, e, g), AltsOf(a, e, hi, g);
      assert ([alt] + more)[1..] == more;
      AltFactored(a, s, e, g, st);
      AltsFactored(a, e, hi, g, st);
      AltMeaning(a, s, e, g, st);
      AltsMeaning(a, e, hi, g, st);
      SuffixesApart(a, s, hi, g);
    }
  }

  lemma SuffixesApart(a: seq<string>, s: nat, hi: nat, g: nat)
    requires s < hi && Ready(a, s, hi, g)
    ensures var e := GroupEnd(a, s, s + 1, hi, g);
            Ready(a, s, e, g) && Ready(a, e, hi, g) && AllApart(Suffixes(a, s, e, g), Suffixes(a, e, hi, g))
  {
    var e := GroupEnd(a, s, s + 1, hi, g);
    ReadyParts(a, s, e, hi, g);
    hide Ready, GroupEnd, BeginApart;
    var vs, ws := Suffixes(a, s, e, g), Suffixes(a, e, hi, g);
    forall i, j | 0 <= i < |vs| && 0 <= j < |ws| ensures BeginApart(vs[i], ws[j]) {
      GroupsApart(a, s, hi, g, s + i, e + j);
    }
  }

  lemma {:induction false} AltFactored(a: seq<string>, s: nat, e: nat, g: nat, st: SeqTerm)
    requires s < e && Ready(a, s, e, g)
    requires e > s + 1 ==> Gcd(a[s], a[e - 1]) > g
    ensures Factored(AltOf(a, s, e, g), st)
    decreases Measure(a, g), e - s, 0
  {
    hide Gcd, AltsOf, Quote, FactoredAlts;
    if e > s + 1 {
      var gcd := Gcd(a[s], a[e - 1]);
      ReadyDeeper(a, s, e, g);
      AltsFactored(a, s, e, gcd, st);
      GroupFactored(Quote(a[s][g..gcd]), AltsOf(a, s, e, gcd), st);
    }
  }

  lemma GroupFactored(q: string, alts: seq<Tree>, st: SeqTerm)
    requires FactoredAlts(alts, st)
    ensures Factored(Cons(Lit(q), Cons(Group(alts), Nil)), st)
  {
    hide FactoredAlts;
    assert Factored(Nil, st);
    assert Factored(Cons(Group(alts), Nil), st);
  }

  // For sorted words without NUL the result is the print of a tree in which every common
  // beginning has been taken out, and which expands to the words.
  lemma MungeIsFactored(a: seq<string>, st: SeqTerm) returns (t: Tree)
    requires a != [] && Ready(a, 0, |a|, 0)
    ensures Proper(t) && Factored(t, st) && Print(t) == Munge(a, 0, |a|, 0) && UnquoteAll(Expand(t, st)) == a
  {
    hide Gcd, AltsOf, Print, Expand, ExpandAlts, Munge, Proper, FactoredAlts, Ready, UnquoteAll, GroupEnd;
    t := TopTree(a, 0, |a|);
    TopPrint(a, 0, |a|, st);
    AltsFactored(a, 0, |a|, 0, st);
    AltsMeaning(a, 0, |a|, 0, st);
    WholeWords(a);
    TopFactored(a, st);
  }

  lemma WholeWords(a: seq<string>)
    requires Ready(a, 0, |a|, 0)
    ensures Suffixes(a, 0, |a|, 0) == a
  {
    forall k | 0 <= k < |a| ensures Suffixes(a, 0, |a|, 0)[k] == a[k] {
      assert a[k][0..] == a[k];
    }
  }

  lemma TopFactored(a: seq<string>, st: SeqTerm)
    requires a != [] && Ready(a, 0, |a|, 0) && FactoredAlts(AltsOf(a, 0, |a|, 0), st)
    ensures Factored(TopTree(a, 0, |a|), st)
  {
    hide Gcd, ApartAlts, Ready;
    var alts := AltsOf(a, 0, |a|, 0);
    assert alts != [] by { hide *; SomeAlts(a); }
    assert Factored(alts[0], st);
  }

  lemma SomeAlts(a: seq<string>)
    requires a != [] && Ready(a, 0, |a|, 0)
    ensures AltsOf(a, 0, |a|, 0) != []
  {
  }
}
