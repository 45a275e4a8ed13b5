/** Single quotes that go astray can come out right by chance, if there are backslashes: a text
    to show it, in pieces, with what the shell has said more, or less, before each. */
module QuoteChance {
  import opened QuoteRewrite
  import opened QuoteContexts
  import opened QuoteSteps
  import opened QuoteReading
  import opened QuoteMeaning

  // Pieces of text that are read without looking at what follows.
  datatype Piece = Quotation | Apostrophe | EscQuotation | EscApostrophe | EscSlash | Opening | Closing

  datatype Pieces = Nil | Cons(head: Piece, tail: Pieces)

  function Spelling(p: Piece): string {
    match p
    case Quotation => "\""
    case Apostrophe => "'"
    case EscQuotation => "\\\""
    case EscApostrophe => "\\'"
    case EscSlash => "\\\\"
    case Opening => "$("
    case Closing => ")"
  }

  function Text(ps: Pieces): string { if ps.Nil? then "" else Spelling(ps.head) + Text(ps.tail) }

  // What a piece says to the shell, or rewritten to the reader, and the context behind it.
  function Said(p: Piece, x: Context, reader: bool): (seq<Token>, Context) {
    if x.Single? then
      match p
      case Quotation => ([Literal('"')], x)
      case Apostrophe => ([], x.outer)
      case EscQuotation => ([Literal('\\'), Literal('"')], x)
      case EscApostrophe => ([Literal('\\')], x.outer)
      case EscSlash => ([Literal('\\'), Literal('\\')], x)
      case Opening => ([Literal('$'), Literal('(')], x)
      case Closing => ([Literal(')')], x)
    else
      match p
      case Quotation => ([], Quote(x))
      case Apostrophe =>
        if x.Group? || (x.Top? && !reader) then ([], Single(x)) else ([Token('\'', !Free(x), false)], x)
      case EscQuotation => ([Literal('"')], x)
      case EscApostrophe => (if Free(x) || reader then [Literal('\'')] else [Literal('\\'), Literal('\'')], x)
      case EscSlash => ([Literal('\\')], x)
      case Opening => ([Begin('(')], Group(')', false, x))
      case Closing => var s := Plain(')', x); (s.says, s.ctx)
  }

  lemma SaidIs(p: Piece, rest: string, x: Context)
    requires Sound(x)
    ensures var s := Said(p, x, false); Meaning(Spelling(p) + rest, x) == s.0 + Meaning(rest, s.1)
  {
    hide Meaning, Sound;
    var t := Spelling(p) + rest;
    ReadOnce(t, x);
    if |Spelling(p)| == 1 {
      assert t[1..] == rest;
    } else {
      assert t[1..] == [t[1]] + rest && t[1..][1..] == rest && t[2..] == rest;
      if x.Single? || (p == EscApostrophe && !Free(x)) {
        ReadOnce(t[1..], x);
      }
    }
  }

  lemma HeardIs(p: Piece, rest: string, y: Context)
    requires Sound(y)
    ensures var s := Said(p, y, true); Decode(Spelling(p) + rest, y) == s.0 + Decode(rest, s.1)
    ensures Sound(Said(p, y, true).1)
  {
    hide Decode;
    var t := Spelling(p) + rest;
    ReadsOnce(t, y);
    if |Spelling(p)| == 1 {
      assert t[1..] == rest;
    } else {
      assert t[1..] == [t[1]] + rest && t[1..][1..] == rest && t[2..] == rest;
      if Read(t, y).n == 1 {
        ReadsOnce(t[1..], y);
      }
    }
  }

  // The pieces that the code puts out for one, and its mode then.
  function Put(p: Piece, k: Mode): Pieces {
    if k == Strong && p == Quotation then Cons(EscQuotation, Nil)
    else if k == Strong && p == EscQuotation then Cons(EscSlash, Cons(EscQuotation, Nil))
    else if k == Strong && p == EscSlash then Cons(p, Cons(p, Nil))
    else if k == Strong && p == EscApostrophe then Cons(EscSlash, Cons(Quotation, Nil))
    else if k == Bare && p == EscApostrophe then Cons(Quotation, Cons(p, Cons(Quotation, Nil)))
    else if k != Weak && p == Apostrophe then Cons(Quotation, Nil)
    else Cons(p, Nil)
  }

  function Next(p: Piece, k: Mode): Mode {
    if p == Quotation || p == EscQuotation then if k == Strong then k else Other(k)
    else if p == Apostrophe then if k == Bare then Strong else if k == Strong then Bare else k
    else if p == EscApostrophe && k == Strong then Bare
    else k
  }

  // The code takes the end of p together with what follows, or does not copy it.
  predicate Mixes(p: Piece, k: Mode, rest: Pieces) {
    || (p == EscSlash && k == Bare && rest.Cons? && rest.head == Apostrophe)
    || (p == Opening && k == Strong)
  }

  function AfterOne(c: char, k: Mode): Mode {
    if c == '"' && k != Strong then Other(k)
    else if c == '\'' && k != Weak then if k == Bare then Strong else Bare
    else k
  }

  function PutOne(c: char, k: Mode): string
    requires c as int < 256
  {
    if k == Strong && c != '\'' then Escape(c) else if c == '\'' && k != Weak then "\"" else [c]
  }

  lemma RewriteOne(c: char, t: string, k: Mode)
    requires c as int < 256 && Covered(t, AfterOne(c, k)) && (k == Bare ==> !Taken([c] + t))
    requires k == Bare && c == '$' && t != [] ==> t[0] != '\''
    ensures Covered([c] + t, k) && Rewrite([c] + t, k) == PutOne(c, k) + Rewrite(t, AfterOne(c, k))
  {
    assert ([c] + t)[1..] == t;
  }

  lemma PutSpelled(p: Piece, k: Mode)
    requires !(p == Opening && k == Strong)
    ensures var t := Spelling(p);
            Text(Put(p, k)) ==
            if p == EscApostrophe && k == Bare then "\"\\'\""
            else if |t| == 1 then PutOne(t[0], k) else PutOne(t[0], k) + PutOne(t[1], k)
  {
    var ps := Put(p, k);
    assert Escape('"') == "\\\"" && Escape('\\') == "\\\\";
    hide Escape, Text;
    TextOf(ps);
    TextOf(ps.tail);
    if ps.tail.Cons? {
      TextOf(ps.tail.tail);
    }
  }

  lemma TextOf(ps: Pieces)
    ensures Text(ps) == if ps.Nil? then "" else Spelling(ps.head) + Text(ps.tail)
    ensures ps.Cons? && ps.tail.Nil? ==> Text(ps) == Spelling(ps.head)
  {
  }

  lemma FirstSpelled(ps: Pieces)
    ensures Text(ps) != [] && Text(ps)[0] == '\'' ==> ps.Cons? && ps.head == Apostrophe
  {
  }

  lemma RewriteTwo(c: char, d: char, t: string, k: Mode)
    requires c as int < 256 && d as int < 256 && (c == '\\' || (c == '$' && d == '('))
    requires var k' := AfterOne(c, k);
             Covered(t, AfterOne(d, k')) && (k' == Bare ==> !Taken([d] + t) && d != '\'' && d != '$')
    ensures Covered([c, d] + t, k)
    ensures Rewrite([c, d] + t, k) == (PutOne(c, k) + PutOne(d, k)) + Rewrite(t, AfterOne(d, k))
  {
    hide Rewrite, Covered, PutOne;
    RewriteOne(d, t, k);
    RewriteOne(c, [d] + t, k);
    assert [c] + ([d] + t) == [c, d] + t;
    var (a, b, r) := (PutOne(c, k), PutOne(d, k), Rewrite(t, AfterOne(d, k)));
    assert a + (b + r) == (a + b) + r;
  }

  lemma PutIs(p: Piece, ps: Pieces, k: Mode)
    requires Covered(Text(ps), Next(p, k)) && !Mixes(p, k, ps)
    ensures var (t, rest) := (Spelling(p) + Text(ps), Text(ps));
            Covered(t, k) && Rewrite(t, k) == Text(Put(p, k)) + Rewrite(rest, Next(p, k))
  {
    var (c, rest) := (Spelling(p), Text(ps));
    PutSpelled(p, k);
    hide Rewrite, Covered, Put, PutOne;
    if |c| == 1 {
      hide Text;
      RewriteOne(c[0], rest, k);
    } else if p == EscApostrophe && k == Bare {
      hide Text;
      assert (c + rest)[2..] == rest;
      RewriteBoth(c + rest);
    } else {
      FirstSpelled(ps);
      hide Text;
      RewriteTwo(c[0], c[1], rest, k);
    }
  }

  lemma RewriteBoth(t: string)
    requires |t| > 1 && t[0] == '\\' && t[1] == '\'' && Covered(t[2..], Bare)
    ensures Covered(t, Bare) && Rewrite(t, Bare) == "\"\\'\"" + Rewrite(t[2..], Bare)
  {
  }

  // What all that is put out for it says to the reader.
  function Heard(ps: Pieces, y: Context): (seq<Token>, Context) {
    if ps.Nil? then ([], y) else
      var s := Said(ps.head, y, true);
      var s' := Heard(ps.tail, s.1);
      (s.0 + s'.0, s'.1)
  }

  lemma {:induction false} AllHeard(ps: Pieces, rest: string, y: Context)
    requires Sound(y)
    ensures Decode(Text(ps) + rest, y) == Heard(ps, y).0 + Decode(rest, Heard(ps, y).1)
  {
    hide Said;
    if ps.Cons? {
      assert Text(ps) + rest == Spelling(ps.head) + (Text(ps.tail) + rest);
      HeardIs(ps.head, Text(ps.tail) + rest, y);
      AllHeard(ps.tail, rest, Said(ps.head, y, true).1);
    } else {
      assert Text(ps) + rest == rest;
    }
  }

  // The rewritten text says what the shell reads, when e has been said already.
  predicate Agrees(ps: Pieces, x: Context, k: Mode, y: Context, e: seq<Token>) {
    && Covered(Text(ps), k)
    && Meaning(Text(ps), x) == e + Decode(Rewrite(Text(ps), k), y)
  }

  lemma Before(p: Piece, ps: Pieces, x: Context, k: Mode, y: Context, e: seq<Token>, e': seq<Token>)
    requires Sound(x) && Sound(y) && !Mixes(p, k, ps)
    requires var (s, h) := (Said(p, x, false), Heard(Put(p, k), y));
             s.0 + e' == e + h.0 && Agrees(ps, s.1, Next(p, k), h.1, e')
    ensures Agrees(Cons(p, ps), x, k, y, e)
  {
    hide Said, Heard, Put, Mixes, Meaning, Decode, Rewrite, Covered, Next, Spelling, Sound;
    var (s, h, k', rest) := (Said(p, x, false), Heard(Put(p, k), y), Next(p, k), Text(ps));
    SaidIs(p, rest, x);
    PutIs(p, ps, k);
    AllHeard(Put(p, k), Rewrite(rest, k'), y);
    var d := Decode(Rewrite(rest, k'), h.1);
    assert s.0 + (e' + d) == (s.0 + e') + d;
    assert e + (h.0 + d) == (e + h.0) + d;
  }

  lemma NothingAgrees()
    ensures Agrees(Nil, Top, Weak, Top, [])
  {
  }

  // A substitution between double quotes.
  function Inside(): Context { Group(')', false, Double(Top)) }

  function Part5(): Pieces {
    Cons(EscApostrophe, Cons(Quotation, Cons(Closing, Cons(Quotation, Nil))))
  }

  lemma Part5Agrees()
    ensures var (g, q, s, a) := (Inside(), Literal('"'), Literal('\\'), Literal('\''));
            Agrees(Part5(), Double(g), Weak, Double(g), [s])
  {
    var (g, q, s, a) := (Inside(), Literal('"'), Literal('\\'), Literal('\''));
    NothingAgrees();
    hide Agrees;
    Before(Quotation, Nil, Double(Top), Bare, Double(Top), [], []);
    var p31 := Cons(Quotation, Nil);
    Before(Closing, p31, g, Bare, g, [], []);
    var p30 := Cons(Closing, p31);
    Before(Quotation, p30, Double(g), Weak, Double(g), [], []);
    var p29 := Cons(Quotation, p30);
    Before(EscApostrophe, p29, Double(g), Weak, Double(g), [s], []);
  }

  function Part4(): Pieces {
    Cons(Apostrophe, Cons(Quotation, Cons(Apostrophe, Cons(Quotation, Cons(Apostrophe, Cons(EscApostrophe,
      Cons(Quotation, Part5())))))))
  }

  lemma Part4Agrees()
    ensures var (g, q, s, a) := (Inside(), Literal('"'), Literal('\\'), Literal('\''));
            Agrees(Part4(), Double(g), Strong, Double(g), [a, q])
  {
    var (g, q, s, a) := (Inside(), Literal('"'), Literal('\\'), Literal('\''));
    Part5Agrees();
    hide Agrees, Part5;
    Before(Quotation, Part5(), g, Bare, g, [s], [s]);
    var p27 := Cons(Quotation, Part5());
    Before(EscApostrophe, p27, g, Strong, Double(g), [a], [s]);
    var p26 := Cons(EscApostrophe, p27);
    Before(Apostrophe, p26, Single(g), Bare, g, [a], [a]);
    var p25 := Cons(Apostrophe, p26);
    Before(Quotation, p25, Single(g), Weak, Double(g), [q, a], [a]);
    var p24 := Cons(Quotation, p25);
    Before(Apostrophe, p24, g, Weak, Double(g), [q], [q, a]);
    var p23 := Cons(Apostrophe, p24);
    Before(Quotation, p23, Double(g), Bare, g, [q], [q]);
    var p22 := Cons(Quotation, p23);
    Before(Apostrophe, p22, Double(g), Strong, Double(g), [a, q], [q]);
  }

  function Part3(): Pieces {
    Cons(EscApostrophe, Cons(EscQuotation, Cons(EscApostrophe, Cons(Quotation, Cons(EscApostrophe,
      Cons(EscQuotation, Cons(Apostrophe, Part4())))))))
  }

  lemma Part3Agrees()
    ensures var (g, q, s, a) := (Inside(), Literal('"'), Literal('\\'), Literal('\''));
            Agrees(Part3(), Single(g), Weak, Double(g), [s, q, a, s])
  {
    var (g, q, s, a) := (Inside(), Literal('"'), Literal('\\'), Literal('\''));
    Part4Agrees();
    hide Agrees, Part4;
    Before(Apostrophe, Part4(), Double(g), Bare, g, [a, a, q], [a, q]);
    var p20 := Cons(Apostrophe, Part4());
    Before(EscQuotation, p20, Double(g), Weak, g, [q, a, a], [a, a, q]);
    var p19 := Cons(EscQuotation, p20);
    Before(EscApostrophe, p19, Double(g), Weak, g, [s, a, q, a], [q, a, a]);
    var p18 := Cons(EscApostrophe, p19);
    Before(Quotation, p18, g, Bare, Double(g), [s, a, q, a], [s, a, q, a]);
    var p17 := Cons(Quotation, p18);
    Before(EscApostrophe, p17, g, Bare, Double(g), [a, s, a, q], [s, a, q, a]);
    var p16 := Cons(EscApostrophe, p17);
    Before(EscQuotation, p16, g, Weak, Double(g), [q, a, s, a], [a, s, a, q]);
    var p15 := Cons(EscQuotation, p16);
    Before(EscApostrophe, p15, Single(g), Weak, Double(g), [s, q, a, s], [q, a, s, a]);
  }

  function Part2(): Pieces {
    Cons(EscSlash, Cons(EscApostrophe, Cons(EscQuotation, Cons(Apostrophe, Cons(Quotation, Cons(EscSlash,
      Cons(Quotation, Part3())))))))
  }

  lemma Part2Agrees()
    ensures var (g, q, s, a) := (Inside(), Literal('"'), Literal('\\'), Literal('\''));
            Agrees(Part2(), Single(g), Bare, Single(g), [s, s, s, q, q])
  {
    var (g, q, s, a) := (Inside(), Literal('"'), Literal('\\'), Literal('\''));
    Part3Agrees();
    hide Agrees, Part3;
    Before(Quotation, Part3(), Single(g), Bare, g, [q, s, q, a, s], [s, q, a, s]);
    var p13 := Cons(Quotation, Part3());
    Before(EscSlash, p13, Single(g), Bare, g, [s, s, q, s, q, a], [q, s, q, a, s]);
    var p12 := Cons(EscSlash, p13);
    Before(Quotation, p12, Single(g), Weak, Double(g), [q, s, s, q, s, q, a], [s, s, q, s, q, a]);
    var p11 := Cons(Quotation, p12);
    Before(Apostrophe, p11, g, Weak, Double(g), [q, s, s, q, s, q], [q, s, s, q, s, q, a]);
    var p10 := Cons(Apostrophe, p11);
    Before(EscQuotation, p10, g, Bare, Double(g), [q, q, s, s, q, s], [q, s, s, q, s, q]);
    var p9 := Cons(EscQuotation, p10);
    Before(EscApostrophe, p9, Single(g), Bare, Single(g), [s, q, q, s, s], [q, q, s, s, q, s]);
    var p8 := Cons(EscApostrophe, p9);
    Before(EscSlash, p8, Single(g), Bare, Single(g), [s, s, s, q, q], [s, q, q, s, s]);
  }

  function Part1(): Pieces {
    Cons(Quotation, Cons(Opening, Cons(Apostrophe, Cons(Quotation, Cons(Apostrophe, Cons(EscQuotation,
      Cons(Apostrophe, Part2())))))))
  }

  lemma Part1Agrees()
    ensures var (g, q, s, a) := (Inside(), Literal('"'), Literal('\\'), Literal('\''));
            Agrees(Part1(), Top, Bare, Top, [])
  {
    var (g, q, s, a) := (Inside(), Literal('"'), Literal('\\'), Literal('\''));
    Part2Agrees();
    hide Agrees, Part2;
    Before(Apostrophe, Part2(), g, Strong, Single(g), [s, s, s, q], [s, s, s, q, q]);
    var p6 := Cons(Apostrophe, Part2());
    Before(EscQuotation, p6, g, Strong, Single(g), [q], [s, s, s, q]);
    var p5 := Cons(EscQuotation, p6);
    Before(Apostrophe, p5, Single(g), Bare, Single(g), [], [q]);
    var p4 := Cons(Apostrophe, p5);
    Before(Quotation, p4, Single(g), Weak, Single(g), [], []);
    var p3 := Cons(Quotation, p4);
    Before(Apostrophe, p3, g, Weak, g, [], []);
    var p2 := Cons(Apostrophe, p3);
    Before(Opening, p2, Double(Top), Weak, Double(Top), [], []);
    var p1 := Cons(Opening, p2);
    Before(Quotation, p1, Top, Bare, Top, [], []);
  }
}
