/** One step of the shell, of replaceSingleQuotes (fix_string.c) and of whoever reads what it
    puts out, taken together. */
module QuoteSteps {
  import opened QuoteRewrite
  import opened QuoteContexts

  // Outside quotes the code takes these two characters together.
  predicate Taken(t: string) { |t| > 1 && ((t[0] == '\\' && t[1] == '\'') || (t[0] == '$' && t[1] == '"')) }

  // A backslash, between double quotes, that says something else once the text is rewritten.
  predicate Renamed(t: string) {
    |t| > 1 && t[0] == '\\' && (t[1] == '\'' || Control(t[1]) != t[1] || HexAt(t))
  }

  // A double quote changes the mode of the code.
  function Other(k: Mode): Mode { if k == Bare then Weak else Bare }

  // The shell in context x and the code in mode k: only where the shell has quotes can the
  // code be between single quotes.
  predicate Together(x: Context, k: Mode) { Sound(x) && (k == Strong ==> !Free(x)) }

  // The context in which the rewritten text is read then. If the code takes a single quote for
  // the beginning of a quotation, its double quote closes one, or opens one in a word.
  function Reader(x: Context, k: Mode): Context {
    if k != Strong then x else if x.Single? then Double(x.outer) else Quote(x)
  }

  // What is read in one step: n characters, which are ms to the shell and come out as ds.
  datatype Unit = Unit(n: nat, ms: seq<Token>, ds: seq<Token>, x: Context, k: Mode)

  // The rewritten text goes on with something else than the shell says: a double quote, a single
  // quote outside all quotes, or what is read where the code alone is between single quotes.
  predicate Clash(t: string, x: Context, k: Mode)
    requires t != []
  {
    if k == Strong then !x.Single? && t[0] != '\'' && t[0] != '\\' && t[0] != 'x' && !IsHex(t[0])
    else if x.Single? then k == Bare && (t[0] == '\'' || Taken(t))
    else (k == Bare && t[0] == '\\' && Taken(t[1..])) || (k == Weak && x.Top? && t[0] == '\'')
  }

  // The step, unless they clash.
  function UnitOf(t: string, x: Context, k: Mode): Unit
    requires t != []
  {
    if x.Single? then ExactUnit(t[0], x, k)
    else if k == Strong then StrongUnit(t, x)
    else if t[0] == '\\' && |t| > 1 then BackslashUnit(t, x, k)
    else if t[0] == '"' then Unit(1, [], [], Quote(x), Other(k))
    else if t[0] == '\'' then
      if Free(x) then Unit(1, [], [], Single(x), if k == Bare then Strong else k)
      else Unit(1, [Literal('\'')], if k == Bare then [] else [Literal('\'')], x, if k == Bare then Strong else k)
    else if Dollared(t) then
      var dollar := [Token('$', !Free(x), true)];
      Unit(1, if Free(x) then [] else dollar, if k == Bare then [] else dollar, x, k)
    else
      var s := if Begins(t) then Enter(t, x) else Plain(t[0], x);
      Unit(s.n, s.says, s.says, s.ctx, k)
  }

  function ExactUnit(c: char, x: Context, k: Mode): Unit
    requires x.Single?
  {
    var k' := if c == '\'' && k == Strong then Bare else if c == '"' && k != Strong then Other(k) else k;
    var s := Exactly(c, x);
    Unit(1, s.says, s.says, s.ctx, k')
  }

  // The code between single quotes that are none.
  function StrongUnit(t: string, x: Context): Unit
    requires t != []
  {
    var c := t[0];
    if c == '\'' then Unit(1, [Literal(c)], [], x, Bare)
    else if Escapes(t, x) then Unit(2, [Literal(t[1])], [Literal(c), Literal(t[1])], x, Strong)
    else if c == '\\' then Unit(1, [Literal(c)], [Literal(c)], x, Strong)
    else Unit(1, [Literal(c)], [Token(c, !Free(Quote(x)), false)], x, Strong)
  }

  function BackslashUnit(t: string, x: Context, k: Mode): Unit
    requires |t| > 1 && t[0] == '\\'
  {
    var c := t[1];
    if HexAt(t) then
      Unit(4, if Free(x) then [Literal(c), Token(t[2], false, false), Token(t[3], false, false)]
           else [Literal('\\'), Literal(c), Literal(t[2]), Literal(t[3])], [Literal(HexByte(t))], x, k)
    else if Escapes(t, x) then Unit(2, [Literal(c)], [Literal(Control(c))], x, if c == '"' then Other(k) else k)
    else if Renamed(t) then Unit(2, [Literal('\\'), Literal(c)], [Literal(Control(c))], x, k)
    else Unit(1, [Literal('\\')], [Literal('\\')], x, k)
  }

  // ---- the step is what the shell reads ----

  lemma UnitTogether(t: string, x: Context, k: Mode)
    requires t != [] && Together(x, k) && !Clash(t, x, k)
    ensures var u := UnitOf(t, x, k); 0 < u.n <= |t| && Together(u.x, u.k)
  {
  }

  lemma MeaningStep(t: string, x: Context, k: Mode)
    requires t != [] && Together(x, k) && !Clash(t, x, k)
    ensures var u := UnitOf(t, x, k); 
            0 < u.n <= |t| && Together(u.x, u.k) && Meaning(t, x) == u.ms + Meaning(t[u.n..], u.x)
  {
    UnitTogether(t, x, k);
    if !x.Single? && k != Strong && |t| > 1 && Renamed(t) && (HexAt(t) || !Escapes(t, x)) {
      RenamedMeaning(t, x);
    } else {
      hide Meaning, Together;
      ReadOnce(t, x);
      OneStep(t, x, k);
    }
  }

  lemma ReadOnce(t: string, x: Context)
    requires t != []
    ensures var s := Shell(t, x); Meaning(t, x) == s.says + Meaning(t[s.n..], s.ctx)
  {
  }

  lemma OneStep(t: string, x: Context, k: Mode)
    requires t != [] && (k == Strong ==> !Free(x)) && !Clash(t, x, k)
    requires x.Single? || k == Strong || |t| == 1 || !Renamed(t) || (!HexAt(t) && Escapes(t, x))
    ensures var (s, u) := (Shell(t, x), UnitOf(t, x, k)); s.n == u.n && s.says == u.ms && s.ctx == u.x
  {
  }

  // A character that is said as it stands, in or outside quotes.
  predicate Ordinary(c: char) { IsHex(c) || Control(c) != c || c == 'x' }

  lemma OrdinaryMeaning(t: string, x: Context)
    requires t != [] && Sound(x) && !x.Single? && (Ordinary(t[0]) || (t[0] == '\'' && !Free(x)))
    ensures Meaning(t, x) == [Token(t[0], !Free(x), false)] + Meaning(t[1..], x)
  {
    hide Meaning;
    ReadOnce(t, x);
  }

  lemma RenamedMeaning(t: string, x: Context)
    requires Renamed(t) && Sound(x) && !x.Single?
    ensures !Escapes(t, x) ==> Meaning(t, x) == [Literal('\\'), Literal(t[1])] + Meaning(t[2..], x)
    ensures HexAt(t) ==>
              var hex := if Free(x) then [Literal('x'), Token(t[2], false, false), Token(t[3], false, false)]
                         else [Literal('\\'), Literal('x'), Literal(t[2]), Literal(t[3])];
              Meaning(t, x) == hex + Meaning(t[4..], x)
  {
    hide Meaning, Sound;
    ReadOnce(t, x);
    assert t[1..][0] == t[1] && t[1..][1..] == t[2..];
    if !Free(x) {
      assert !Escapes(t, x);
      OrdinaryMeaning(t[1..], x);
      assert [Literal('\\')] + ([Literal(t[1])] + Meaning(t[2..], x)) ==
             [Literal('\\'), Literal(t[1])] + Meaning(t[2..], x);
    }
    if HexAt(t) {
      assert t[2..][0] == t[2] && t[2..][1..] == t[3..] && t[3..][0] == t[3] && t[3..][1..] == t[4..];
      OrdinaryMeaning(t[2..], x);
      OrdinaryMeaning(t[3..], x);
      var h, l, rest := Token(t[2], !Free(x), false), Token(t[3], !Free(x), false), Meaning(t[4..], x);
      if Free(x) {
        assert [Literal('x')] + ([h] + ([l] + rest)) == [Literal('x'), h, l] + rest;
      } else {
        var slash, letter := Literal('\\'), Literal('x');
        assert [slash, letter] + ([h] + ([l] + rest)) == [slash, letter, h, l] + rest;
      }
    }
  }

  // ---- how the rewritten text is read ----

  lemma ReadsOnce(t: string, x: Context)
    requires t != []
    ensures var s := Read(t, x); Decode(t, x) == s.says + Decode(t[s.n..], s.ctx)
  {
  }

  lemma QuoteDecodes(rest: string, x: Context)
    requires !x.Single?
    ensures Decode("\"" + rest, x) == Decode(rest, Quote(x))
  {
    ReadsOnce("\"" + rest, x);
    assert ("\"" + rest)[1..] == rest;
  }

  // A character with no special meaning.
  lemma PlainDecodes(c: char, rest: string, x: Context)
    requires !x.Single? && c != '"' && c != '\\' && !(c == '\'' && x.Group?) && !Begins([c] + rest)
    ensures var s := Plain(c, x); Decode([c] + rest, x) == s.says + Decode(rest, s.ctx)
  {
    hide Decode, Begins;
    ReadsOnce([c] + rest, x);
    assert ([c] + rest)[1..] == rest;
  }

  lemma ExactDecodes(c: char, rest: string, x: Context)
    requires x.Single?
    ensures var s := Exactly(c, x); Decode([c] + rest, x) == s.says + Decode(rest, s.ctx)
  {
    hide Decode;
    ReadsOnce([c] + rest, x);
    assert ([c] + rest)[1..] == rest;
  }

  // A backslash and what it escapes.
  lemma PairDecodes(c: char, rest: string, x: Context)
    requires !x.Single? && !HexAt(['\\', c] + rest)
    requires Free(x) || Special(c) || c == '\'' || Control(c) != c || (x.Word? && c == '}')
    ensures Decode(['\\', c] + rest, x) == [Literal(Control(c))] + Decode(rest, x)
  {
    hide Decode, HexAt;
    ReadsOnce(['\\', c] + rest, x);
    assert (['\\', c] + rest)[2..] == rest;
  }

  lemma HexDecodes(h: char, l: char, rest: string, x: Context)
    requires !x.Single? && IsHex(h) && IsHex(l)
    ensures Decode(['\\', 'x', h, l] + rest, x) ==
            [Literal((16 * HexValue(h) + HexValue(l)) as char)] + Decode(rest, x)
  {
    hide Decode;
    var t := ['\\', 'x', h, l] + rest;
    ReadsOnce(t, x);
    assert HexAt(t) && t[4..] == rest;
  }

  // A single quote with its backslash in quotes of its own.
  lemma QuotedQuote(rest: string, x: Context)
    requires Sound(x) && !x.Single?
    ensures Decode("\"\\'\"" + rest, x) == [Literal('\'')] + Decode(rest, x)
  {
    hide Decode;
    QuoteTwice(x);
    assert "\"\\'\"" + rest == "\"" + (['\\', '\''] + ("\"" + rest));
    QuoteDecodes(['\\', '\''] + ("\"" + rest), x);
    PairDecodes('\'', "\"" + rest, Quote(x));
    QuoteDecodes(rest, Quote(x));
  }

  // ---- escaping ----

  lemma HexRoundTrip(d: int)
    requires 0 <= d < 16
    ensures IsHex(HexDigit(d)) && HexValue(HexDigit(d)) == d
  {
  }

  // Escaped by more than itself.
  predicate Marked(c: char) { Special(c) || Name(c) != '\0' || !Printable(c) }

  // Unescaping undoes escaping, wherever the escape stands.
  lemma EscapeDecodes(c: char, rest: string, x: Context)
    requires c as int < 256 && !x.Single? && Marked(c)
    ensures Decode(Escape(c) + rest, x) == [Literal(c)] + Decode(rest, x)
  {
    hide Decode;
    if Special(c) {
      PairDecodes(c, rest, x);
    } else if Name(c) != '\0' {
      PairDecodes(Name(c), rest, x);
    } else {
      HexRoundTrip(c as int / 16);
      HexRoundTrip(c as int % 16);
      HexDecodes(HexDigit(c as int / 16), HexDigit(c as int % 16), rest, x);
    }
  }

  // Between double quotes it makes a literal of every byte.
  lemma EscapeIsLiteral(c: char, rest: string, x: Context)
    requires c as int < 256 && x.Double?
    ensures Decode(Escape(c) + rest, x) == [Literal(c)] + Decode(rest, x)
  {
    hide Decode;
    if Marked(c) {
      EscapeDecodes(c, rest, x);
    } else {
      assert !Begins([c] + rest);
      PlainDecodes(c, rest, x);
    }
  }
}
