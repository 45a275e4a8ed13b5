/** How the text that replaceSingleQuotes puts out is read, step by step. */
module QuoteReading {
  import opened QuoteRewrite
  import opened QuoteContexts
  import opened QuoteSteps

  // ---- what the code makes of the beginning of a text ----

  lemma RewriteWeak(t: string)
    requires t != [] && Covered(t, Weak)
    ensures var k := if t[0] == '"' then Bare else Weak;
            Covered(t[1..], k) && Rewrite(t, Weak) == [t[0]] + Rewrite(t[1..], k)
  {
  }

  lemma RewriteStrong(t: string)
    requires t != [] && Covered(t, Strong)
    ensures t[0] as int < 256
    ensures t[0] == '\'' ==> Covered(t[1..], Bare) && Rewrite(t, Strong) == "\"" + Rewrite(t[1..], Bare)
    ensures t[0] != '\'' ==> Covered(t[1..], Strong) && Rewrite(t, Strong) == Escape(t[0]) + Rewrite(t[1..], Strong)
  {
  }

  lemma RewriteBare(t: string)
    requires t != [] && Covered(t, Bare)
    ensures t[0] == '"' ==> Covered(t[1..], Weak) && Rewrite(t, Bare) == "\"" + Rewrite(t[1..], Weak)
    ensures t[0] == '\'' ==> Covered(t[1..], Strong) && Rewrite(t, Bare) == "\"" + Rewrite(t[1..], Strong)
    ensures Taken(t) && t[0] == '\\' ==>
              Covered(t[2..], Bare) && Rewrite(t, Bare) == "\"\\'\"" + Rewrite(t[2..], Bare)
    ensures Dollared(t) ==> Covered(t[1..], Bare) && Rewrite(t, Bare) == Rewrite(t[1..], Bare)
    ensures t[0] != '"' && t[0] != '\'' && !Taken(t) ==>
              Covered(t[1..], Bare) && Rewrite(t, Bare) == [t[0]] + Rewrite(t[1..], Bare)
  {
  }

  // Outside single quotes a character that the code does not look at is copied.
  lemma Copied(t: string, k: Mode)
    requires t != [] && k != Strong && Covered(t, k)
    requires t[0] != '"' && (k == Bare ==> t[0] != '\'' && !Taken(t))
    ensures Covered(t[1..], k) && Rewrite(t, k) == [t[0]] + Rewrite(t[1..], k)
  {
    if k == Bare {
      RewriteBare(t);
    } else {
      RewriteWeak(t);
    }
  }

  // A backslash and the character behind it, copied together.
  lemma CopiedPair(t: string, k: Mode)
    requires |t| > 1 && t[0] == '\\' && k != Strong && Covered(t, k)
    requires k == Bare ==> t[1] != '\'' && !Taken(t[1..])
    ensures var k' := if t[1] == '"' then Other(k) else k;
            Covered(t[2..], k') && Rewrite(t, k) == ['\\', t[1]] + Rewrite(t[2..], k')
  {
    hide Covered, Rewrite;
    var k' := if t[1] == '"' then Other(k) else k;
    assert t[1..][1..] == t[2..];
    Copied(t, k);
    if t[1] != '"' {
      Copied(t[1..], k);
    } else if k == Bare {
      RewriteBare(t[1..]);
    } else {
      RewriteWeak(t[1..]);
    }
    assert ['\\'] + ([t[1]] + Rewrite(t[2..], k')) == ['\\', t[1]] + Rewrite(t[2..], k');
  }

  // The rewritten text begins as the text does, or with a double quote for another of the
  // characters that the code looks at.
  lemma FirstOf(t: string, k: Mode)
    requires k != Strong && Covered(t, k)
    ensures var r := Rewrite(t, k);
            if t == [] then r == []
            else r != [] && (r[0] == t[0] || (r[0] == '"' && Stop(t[0]) && t[0] != '}'))
    ensures t != [] && t[0] != '"' && t[0] != '\'' && t[0] != '\\' && t[0] != '$' ==>
              Covered(t[1..], k) && Rewrite(t, k) == [t[0]] + Rewrite(t[1..], k)
  {
    if t != [] {
      hide Covered, Rewrite;
      if k == Weak {
        RewriteWeak(t);
      } else {
        RewriteBare(t);
        if Dollared(t) {
          RewriteBare(t[1..]);
        }
      }
    } else {
      NothingLeft(t, k);
    }
  }

  lemma {:induction false} NamedKept(t: string, k: Mode)
    requires k != Strong && Covered(t, k)
    ensures Named(Rewrite(t, k)) == Named(t)
    decreases |t|
  {
    hide Covered, Rewrite;
    FirstOf(t, k);
    if t != [] && !Stop(t[0]) {
      NamedKept(t[1..], k);
      assert Rewrite(t, k)[1..] == Rewrite(t[1..], k);
    }
  }

  // The operator of a substitution is found again in the rewritten text.
  lemma PatternKept(t: string, k: Mode)
    requires k != Strong && Covered(t, k)
    ensures Pattern(Rewrite(t, k)) == Pattern(t)
  {
    hide Covered, Rewrite, Named;
    FirstOf(t, k);
    if t != [] && !Stop(t[0]) {
      NamedKept(t[1..], k);
      assert Rewrite(t, k)[1..] == Rewrite(t[1..], k);
    }
  }

  // ---- the step is what the rewritten text says ----

  // What DecodeStep claims.
  predicate Decodes(t: string, x: Context, k: Mode)
    requires t != [] && Covered(t, k)
  {
    var u := UnitOf(t, x, k);
    && 0 < u.n <= |t| && Covered(t[u.n..], u.k)
    && Decode(Rewrite(t, k), Reader(x, k)) == u.ds + Decode(Rewrite(t[u.n..], u.k), Reader(u.x, u.k))
  }

  // Both the shell and the code between single quotes, or the code alone.
  lemma StrongDecodes(t: string, x: Context)
    requires t != [] && Together(x, Strong) && Covered(t, Strong) && !Clash(t, x, Strong)
    ensures Decodes(t, x, Strong)
  {
    hide Covered, Rewrite, Decode, Escape, Sound;
    RewriteStrong(t);
    var y := Reader(x, Strong);
    QuoteTwice(x);
    assert !y.Single? by { ReaderSound(x); }
    if t[0] == '\'' {
      QuoteDecodes(Rewrite(t[1..], Bare), y);
    } else if x.Single? {
      EscapeIsLiteral(t[0], Rewrite(t[1..], Strong), y);
    } else if t[0] == '\\' {
      EscapeDecodes(t[0], Rewrite(t[1..], Strong), y);
      if Escapes(t, x) {
        assert t[1..][1..] == t[2..];
        RewriteStrong(t[1..]);
        if Special(t[1]) {
          EscapeDecodes(t[1], Rewrite(t[2..], Strong), y);
        } else {
          EscapeIsLiteral(t[1], Rewrite(t[2..], Strong), y);
        }
        var rest := Decode(Rewrite(t[2..], Strong), y);
        assert [Literal(t[0])] + ([Literal(t[1])] + rest) == [Literal(t[0]), Literal(t[1])] + rest;
      }
    } else {
      OrdinaryDecodes(t[0], Rewrite(t[1..], Strong), y);
    }
  }

  lemma ReaderSound(x: Context)
    requires Together(x, Strong)
    ensures !Reader(x, Strong).Single?
    ensures Reader(x, Strong).Group? ==> Sound(Reader(x, Strong))
  {
  }

  lemma OrdinaryDecodes(c: char, rest: string, y: Context)
    requires (c == 'x' || IsHex(c)) && !y.Single? && (y.Group? ==> Sound(y))
    ensures Escape(c) == [c] && Decode([c] + rest, y) == [Token(c, !Free(y), false)] + Decode(rest, y)
  {
    hide Decode;
    assert !Begins([c] + rest);
    PlainDecodes(c, rest, y);
  }

  // Single quotes that the code has left, with the shell between them.
  lemma ExactStep(t: string, x: Context, k: Mode)
    requires t != [] && x.Single? && k != Strong && Covered(t, k) && !Clash(t, x, k)
    ensures Decodes(t, x, k)
  {
    hide Covered, Rewrite, Decode;
    if t[0] != '"' {
      Copied(t, k);
    } else if k == Bare {
      RewriteBare(t);
    } else {
      RewriteWeak(t);
    }
    ExactDecodes(t[0], Rewrite(t[1..], UnitOf(t, x, k).k), x);
  }

  lemma BackslashStep(t: string, x: Context, k: Mode)
    requires |t| > 1 && t[0] == '\\' && Together(x, k) && !x.Single? && k != Strong
    requires Covered(t, k) && !Clash(t, x, k)
    ensures Decodes(t, x, k)
  {
    hide Covered, Rewrite, Decode, HexAt;
    if k == Bare && t[1] == '\'' {
      RewriteBare(t);
      QuotedQuote(Rewrite(t[2..], Bare), x);
      NoHex(t);
    } else {
      CopiedPair(t, k);
      HexKept(t, k);
      var k' := if t[1] == '"' then Other(k) else k;
      if HexAt(t) {
        HexStep(t, x, k);
      } else if Escapes(t, x) || Renamed(t) {
        PairDecodes(t[1], Rewrite(t[2..], k'), x);
      } else {
        Copied(t, k);
        Copied(t[1..], k);
        SlashDecodes(Rewrite(t[1..], k), x);
      }
    }
  }

  lemma NoHex(t: string)
    requires |t| > 1 && t[1] != 'x'
    ensures !HexAt(t)
  {
  }

  // The rewritten text has a byte in hexadecimal where the text has one.
  lemma HexKept(t: string, k: Mode)
    requires |t| > 1 && k != Strong && Covered(t, k)
    requires var k' := if t[1] == '"' then Other(k) else k;
             Covered(t[2..], k') && Rewrite(t, k) == ['\\', t[1]] + Rewrite(t[2..], k')
    ensures t[0] == '\\' ==> HexAt(Rewrite(t, k)) == HexAt(t)
    ensures t[0] == '\\' && HexAt(t) ==>
              Covered(t[4..], k) && Rewrite(t, k) == ['\\', 'x', t[2], t[3]] + Rewrite(t[4..], k)
  {
    hide Covered, Rewrite;
    if t[1] == 'x' {
      FirstOf(t[2..], k);
      assert Rewrite(t, k)[2..] == Rewrite(t[2..], k);
      if |t| > 2 && IsHex(t[2]) {
        assert t[2..][1..] == t[3..] && t[2..][0] == t[2];
        FirstOf(t[3..], k);
        assert Rewrite(t, k)[3..] == Rewrite(t[3..], k);
        if |t| > 3 && IsHex(t[3]) {
          assert t[3..][1..] == t[4..] && t[3..][0] == t[3];
          assert Rewrite(t, k) == ['\\', 'x', t[2], t[3]] + Rewrite(t[4..], k);
        }
      }
    }
  }

  lemma HexStep(t: string, x: Context, k: Mode)
    requires HexAt(t) && !x.Single? && Covered(t, k) && k != Strong
    requires Covered(t[4..], k) && Rewrite(t, k) == ['\\', 'x', t[2], t[3]] + Rewrite(t[4..], k)
    ensures Decodes(t, x, k)
  {
    hide Covered, Rewrite, Decode;
    HexDecodes(t[2], t[3], Rewrite(t[4..], k), x);
  }

  // A backslash that escapes nothing.
  lemma SlashDecodes(rest: string, x: Context)
    requires !x.Single? && !HexAt("\\" + rest) && (x.Group? ==> Sound(x))
    requires rest == [] || !(Free(x) || Special(rest[0]) || rest[0] == '\'' || Control(rest[0]) != rest[0]
                             || (x.Word? && rest[0] == '}'))
    ensures Decode("\\" + rest, x) == [Token('\\', !Free(x), false)] + Decode(rest, x)
  {
    hide Decode, HexAt;
    ReadsOnce("\\" + rest, x);
    assert ("\\" + rest)[1..] == rest;
  }

  // A quote of either kind.
  lemma QuoteStep(t: string, x: Context, k: Mode)
    requires t != [] && (t[0] == '"' || t[0] == '\'') && Together(x, k) && !x.Single? && k != Strong
    requires Covered(t, k) && !Clash(t, x, k)
    ensures Decodes(t, x, k)
  {
    hide Covered, Rewrite, Decode;
    if k == Bare {
      RewriteBare(t);
    } else {
      RewriteWeak(t);
    }
    var rest := Rewrite(t[1..], UnitOf(t, x, k).k);
    if t[0] == '"' || k == Bare {
      QuoteDecodes(rest, x);
    } else if x.Group? {
      ReadsOnce("'" + rest, x);
      assert ("'" + rest)[1..] == rest;
    } else {
      assert !Begins("'" + rest);
      PlainDecodes('\'', rest, x);
    }
  }

  lemma DollarStep(t: string, x: Context, k: Mode)
    requires t != [] && t[0] == '$' && Together(x, k) && !x.Single? && k != Strong
    requires Covered(t, k) && !Clash(t, x, k)
    ensures Decodes(t, x, k)
  {
    hide Covered, Rewrite, Decode, Pattern;
    if k == Bare && Dollared(t) {
      RewriteBare(t);
    } else {
      Copied(t, k);
      FirstOf(t[1..], k);
      var rest := Rewrite(t[1..], k);
      if Begins(t) {
        assert t[1..][1..] == t[2..] && rest == [t[1]] + Rewrite(t[2..], k);
        var out := Rewrite(t, k);
        assert out == ['$', t[1]] + Rewrite(t[2..], k) && out[2..] == Rewrite(t[2..], k);
        PatternKept(t[2..], k);
        ReadsOnce(out, x);
      } else {
        assert !Begins(['$'] + rest);
        PlainDecodes('$', rest, x);
      }
    }
  }

  lemma PlainStep(t: string, x: Context, k: Mode)
    requires t != [] && Together(x, k) && !x.Single? && k != Strong
    requires t[0] != '"' && t[0] != '\'' && t[0] != '$' && (t[0] == '\\' ==> |t| == 1)
    requires Covered(t, k)
    ensures Decodes(t, x, k)
  {
    hide Covered, Rewrite, Decode;
    Copied(t, k);
    var rest := Rewrite(t[1..], k);
    if t[0] == '\\' {
      NothingLeft(t[1..], k);
      SlashDecodes(rest, x);
    } else {
      assert !Begins([t[0]] + rest);
      PlainDecodes(t[0], rest, x);
    }
  }

  lemma DecodeStep(t: string, x: Context, k: Mode)
    requires t != [] && Together(x, k) && Covered(t, k) && !Clash(t, x, k)
    ensures var u := UnitOf(t, x, k);
            && 0 < u.n <= |t| && Covered(t[u.n..], u.k)
            && Decode(Rewrite(t, k), Reader(x, k)) == u.ds + Decode(Rewrite(t[u.n..], u.k), Reader(u.x, u.k))
  {
    assert Decodes(t, x, k) by {
      hide Covered, Rewrite, Decode, Decodes, UnitOf;
      if k == Strong {
        StrongDecodes(t, x);
      } else if x.Single? {
        ExactStep(t, x, k);
      } else if t[0] == '\\' && |t| > 1 {
        BackslashStep(t, x, k);
      } else if t[0] == '"' || t[0] == '\'' {
        QuoteStep(t, x, k);
      } else if t[0] == '$' {
        DollarStep(t, x, k);
      } else {
        PlainStep(t, x, k);
      }
    }
  }
}
