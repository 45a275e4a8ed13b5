/** What brace expansion does to texts, said without trees: alternatives come out in their
    order, two groups multiply, and a sequence gives its terms or stays. */
module BraceLaws {
  import opened Options
  import opened BraceText
  import opened BraceTree

  // The strings between separators.
  function Joined(ws: seq<string>): string {
    if ws == [] then "" else if |ws| == 1 then ws[0] else ws[0] + "," + Joined(ws[1..])
  }

  predicate AllInert(ws: seq<string>) { forall i :: 0 <= i < |ws| ==> Inert(ws[i]) }

  // The element of a product: the right factor varies fastest.
  lemma {:induction false} ProductAt(xs: seq<string>, ys: seq<string>, i: nat, j: nat)
    requires i < |xs| && j < |ys|
    ensures 0 <= i * |ys| + j < |Product(xs, ys)| && Product(xs, ys)[i * |ys| + j] == xs[i] + ys[j]
  {
    if i == 0 {
      assert Product(xs, ys)[j] == Prefixed(xs[0], ys)[j];
    } else {
      ProductAt(xs[1..], ys, i - 1, j);
      assert (i - 1) * |ys| + j + |ys| == i * |ys| + j;
      assert Product(xs, ys) == Prefixed(xs[0], ys) + Product(xs[1..], ys);
    }
  }

  function Leaf(w: string): Tree { Cons(Lit(w), Nil) }

  function Leaves(ws: seq<string>): (ts: seq<Tree>)
    ensures |ts| == |ws|
  {
    if ws == [] then [] else [Leaf(ws[0])] + Leaves(ws[1..])
  }

  lemma LeafIs(w: string, st: SeqTerm)
    requires Inert(w)
    ensures Proper(Leaf(w)) && Print(Leaf(w)) == w && Expand(Leaf(w), st) == [w]
  {
    hide Inert;
    assert Print(Leaf(w)) == w + "" == w;
    ProductNeutral([w]);
  }

  lemma {:induction false} LeavesAre(ws: seq<string>, st: SeqTerm)
    requires AllInert(ws)
    ensures ProperAlts(Leaves(ws)) && PrintAlts(Leaves(ws)) == Joined(ws) && ExpandAlts(Leaves(ws), st) == ws
  {
    hide Inert, Print, Expand, Proper;
    if ws != [] {
      var ts := Leaves(ws);
      LeafIs(ws[0], st);
      LeavesAre(ws[1..], st);
      assert ts[1..] == Leaves(ws[1..]);
      if |ws| == 1 {
        AltsOne(ts);
      } else {
        AltsMore(ts);
        assert ws == [ws[0]] + ws[1..];
      }
    }
  }

  // An item with text on both sides.
  lemma Around(front: string, item: Item, post: string, st: SeqTerm)
    requires Inert(front) && ProperItem(item) && Inert(post)
    ensures BraceExpand(front + (PrintItem(item) + post), st) ==
            Product([front], Product(ExpandItem(item, st), [post]))
  {
    var t := Cons(Lit(front), Cons(item, Leaf(post)));
    LeafIs(post, st);
    ExpandsPrintedTree(t, st);
  }

  // front{w1,...,wn}post: every word between front and post, in the order they are written.
  lemma AlternativesLaw(front: string, ws: seq<string>, post: string, st: SeqTerm)
    requires Inert(front) && |ws| >= 2 && AllInert(ws) && Inert(post)
    ensures var r := BraceExpand(front + ("{" + Joined(ws) + "}" + post), st);
            |r| == |ws| && forall i :: 0 <= i < |ws| ==> r[i] == front + (ws[i] + post)
  {
    hide Inert, BraceExpand, Product, ProperItem, PrintItem, ExpandItem;
    Braces(ws, st);
    Around(front, Group(Leaves(ws)), post, st);
    var r := BraceExpand(front + ("{" + Joined(ws) + "}" + post), st);
    Between(front, ws, post);
  }

  lemma Between(front: string, ws: seq<string>, post: string)
    ensures var r := Product([front], Product(ws, [post]));
            |r| == |ws| && forall i :: 0 <= i < |ws| ==> r[i] == front + (ws[i] + post)
  {
    hide Product;
    forall i | 0 <= i < |ws| ensures Product([front], Product(ws, [post]))[i] == front + (ws[i] + post) {
      ProductAt(ws, [post], i, 0);
      ProductAt([front], Product(ws, [post]), 0, i);
    }
  }

  // {x1,...,xm}{y1,...,yn}: every x with every y, the y varying fastest.
  lemma TwoGroups(xs: seq<string>, ys: seq<string>, i: nat, j: nat, st: SeqTerm)
    requires |xs| >= 2 && |ys| >= 2 && AllInert(xs) && AllInert(ys) && i < |xs| && j < |ys|
    ensures var r := BraceExpand(("{" + Joined(xs) + "}") + ("{" + Joined(ys) + "}"), st);
            |r| == |xs| * |ys| && 0 <= i * |ys| + j < |r| && r[i * |ys| + j] == xs[i] + ys[j]
  {
    hide Inert, BraceExpand, Product, PrintItem, ProperItem, ExpandItem, Joined;
    Braces(xs, st);
    Braces(ys, st);
    TwoItems(Group(Leaves(xs)), Group(Leaves(ys)), st);
    ProductAt(xs, ys, i, j);
  }

  lemma Braces(ws: seq<string>, st: SeqTerm)
    requires |ws| >= 2 && AllInert(ws)
    ensures var item := Group(Leaves(ws));
            ProperItem(item) && PrintItem(item) == "{" + Joined(ws) + "}" && ExpandItem(item, st) == ws
  {
    LeavesAre(ws, st);
  }

  lemma TwoItems(a: Item, b: Item, st: SeqTerm)
    requires ProperItem(a) && ProperItem(b)
    ensures BraceExpand(PrintItem(a) + PrintItem(b), st) == Product(ExpandItem(a, st), ExpandItem(b, st))
  {
    hide Inert, BraceExpand, Product, PrintItem, ProperItem, ExpandItem;
    var last := Cons(b, Nil);
    assert Print(last) == PrintItem(b) + "" == PrintItem(b);
    ProductNeutral(ExpandItem(b, st));
    assert Expand(last, st) == Product(ExpandItem(b, st), Expand(Nil, st)) == ExpandItem(b, st);
    assert Print(Cons(a, last)) == PrintItem(a) + Print(last) && Proper(last);
    ExpandsPrintedTree(Cons(a, last), st);
  }

  // front{s}post with a sequence term s: a word for each of its terms, in order; if s has none
  // the braces stay, and so does the whole text.
  lemma SequenceLaw(front: string, s: string, post: string, st: SeqTerm)
    requires Inert(front) && Inert(s) && !HasComma(s, 0) && Dotted(s, '\0') && Inert(post)
    ensures var text := front + ("{" + s + "}" + post);
            var r := BraceExpand(text, st);
            match st(s)
            case None => r == [text]
            case Some(terms) => |r| == |terms| && forall i :: 0 <= i < |terms| ==> r[i] == front + (terms[i] + post)
  {
    hide Inert, BraceExpand, Product, HasComma, Dotted;
    Around(front, Term(s), post, st);
    if st(s).Some? {
      Between(front, st(s).value, post);
    } else {
      Between(front, ["{" + s + "}"], post);
    }
  }

  // x{1..3} gives x1, x2 and x3.
  lemma OneToThree(st: SeqTerm)
    requires st("1..3") == Some(["1", "2", "3"])
    ensures BraceExpand("x{1..3}", st) == ["x1", "x2", "x3"]
  {
    hide *;
    OneToThreeIsTerm();
    SequenceLaw("x", "1..3", "", st);
    assert "x" + ("{" + "1..3" + "}" + "") == "x{1..3}";
    assert "x" + ("1" + "") == "x1" && "x" + ("2" + "") == "x2" && "x" + ("3" + "") == "x3";
    var r, terms := BraceExpand("x{1..3}", st), ["1", "2", "3"];
    assert r[0] == "x" + (terms[0] + "") && r[1] == "x" + (terms[1] + "") && r[2] == "x" + (terms[2] + "");
  }

  lemma OneToThreeIsTerm()
    ensures Inert("x") && Inert("1..3") && !HasComma("1..3", 0) && Dotted("1..3", '\0') && Inert("")
  {
  }
}
