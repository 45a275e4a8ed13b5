/** What replaceSingleQuotes (fix_string.c) does to the meaning of a text: whether it is kept can
    be seen by reading the text once, with the contexts of the shell and the mode of the code. */
module QuoteMeaning {
  import opened QuoteRewrite
  import opened QuoteContexts
  import opened QuoteSteps
  import opened QuoteReading

  // What a scan of the text finds first: that the meaning is lost, or single quotes that the
  // code has left to the shell and closes with a double quote, or neither.
  datatype Verdict = Kept | Lost | Stray

  predicate Strays(t: string, x: Context, k: Mode)
    requires t != []
  {
    x.Single? && k == Bare && t[0] == '\''
  }

  // The code does at the beginning of t what the shell's context asks for. A backslash must
  // not be taken apart from what it escapes, or read as the name of another character; a
  // single quote or $" must not come where one of the two is between double quotes and the
  // other is not, unless the quote goes to a shell as it is.
  predicate Fits(t: string, x: Context, k: Mode)
    requires t != []
  {
    if k == Strong then true
    else if x.Single? then k == Bare ==> !Taken(t)
    else if Escapes(t, x) then !(k == Bare && Taken(t[1..])) && Control(t[1]) == t[1] && !HexAt(t)
    else if t[0] == '\'' then if Free(x) then k == Bare || x.Group? else k == Weak
    else if Dollared(t) then k == Bare <==> Free(x)
    else !Renamed(t)
  }

  // The mode that the code gets into.
  function After(t: string, x: Context, k: Mode): Mode
    requires t != []
  {
    if k == Strong then if t[0] == '\'' then Bare else Strong
    else if t[0] == '"' || (Escapes(t, x) && t[1] == '"') then Other(k)
    else if t[0] == '\'' && Free(x) && k == Bare then Strong
    else k
  }

  function Judge(t: string, x: Context, k: Mode): Verdict
    decreases |t|
  {
    if t == [] then Kept
    else if Strays(t, x, k) then Stray
    else if !Fits(t, x, k) then Lost
    else
      var s := Shell(t, x);
      Judge(t[s.n..], s.ctx, After(t, x, k))
  }

  // ---- where the scan succeeds ----

  // Where the shell and the code can be as long as the scan has found nothing.
  predicate Synced(x: Context, k: Mode) {
    && Together(x, k)
    && (if k == Strong then x.Single? else x.Single? ==> x.outer.Group?)
  }

  lemma JudgeOnce(t: string, x: Context, k: Mode)
    requires t != []
    ensures Judge(t, x, k) ==
            if Strays(t, x, k) then Stray else if !Fits(t, x, k) then Lost
            else var s := Shell(t, x); Judge(t[s.n..], s.ctx, After(t, x, k))
  {
  }

  // What FitsExactly claims of a step without a clash.
  predicate FitsUnit(t: string, x: Context, k: Mode)
    requires t != []
  {
    var (u, s) := (UnitOf(t, x, k), Shell(t, x));
    && (Fits(t, x, k) <==> u.ms == u.ds && Synced(u.x, u.k))
    && (Fits(t, x, k) ==> s.n == u.n && s.ctx == u.x && After(t, x, k) == u.k)
  }

  lemma FitsBackslash(t: string, x: Context, k: Mode)
    requires |t| > 1 && t[0] == '\\' && Synced(x, k) && !x.Single? && !Clash(t, x, k)
    ensures FitsUnit(t, x, k)
  {
    hide HexByte;
    UnitTogether(t, x, k);
  }

  lemma FitsOther(t: string, x: Context, k: Mode)
    requires t != [] && (t[0] == '\\' ==> |t| == 1) && Synced(x, k) && !x.Single? && !Clash(t, x, k)
    ensures FitsUnit(t, x, k)
  {
    hide HexAt;
    UnitTogether(t, x, k);
  }

  lemma FitsExactly(t: string, x: Context, k: Mode)
    requires t != [] && Synced(x, k)
    ensures Clash(t, x, k) ==> Strays(t, x, k) || !Fits(t, x, k)
    ensures !Clash(t, x, k) ==> !Strays(t, x, k) && FitsUnit(t, x, k)
  {
    if x.Single? {
      if !Clash(t, x, k) {
        UnitTogether(t, x, k);
      }
    } else if !Clash(t, x, k) {
      hide Fits, FitsUnit, UnitOf;
      if t[0] == '\\' && |t| > 1 {
        FitsBackslash(t, x, k);
      } else {
        FitsOther(t, x, k);
      }
    }
  }

  lemma JudgeStep(t: string, x: Context, k: Mode)
    requires t != [] && Synced(x, k)
    ensures Clash(t, x, k) ==> Judge(t, x, k) == if Strays(t, x, k) then Stray else Lost
    ensures !Clash(t, x, k) ==>
              var u := UnitOf(t, x, k);
              && 0 < u.n <= |t|
              && if u.ms == u.ds && Synced(u.x, u.k) then Judge(t, x, k) == Judge(t[u.n..], u.x, u.k)
                 else Judge(t, x, k) == Lost
  {
    assert Together(x, k);
    hide Judge, Fits, UnitOf, Clash, Strays, Synced;
    JudgeOnce(t, x, k);
    FitsExactly(t, x, k);
    if !Clash(t, x, k) {
      UnitTogether(t, x, k);
    }
  }

  lemma {:induction false} KeptIsKept(t: string, x: Context, k: Mode)
    requires Synced(x, k) && Covered(t, k) && Judge(t, x, k) == Kept
    ensures Decode(Rewrite(t, k), Reader(x, k)) == Meaning(t, x)
    decreases |t|
  {
    hide Judge, UnitOf, Clash, Covered, Rewrite, Decode, Meaning, Reader;
    if t == [] {
      EndOfText(t, x, k);
    } else {
      JudgeStep(t, x, k);
      MeaningStep(t, x, k);
      DecodeStep(t, x, k);
      var u := UnitOf(t, x, k);
      KeptIsKept(t[u.n..], u.x, u.k);
    }
  }

  lemma EndOfText(t: string, x: Context, k: Mode)
    requires t == [] && Covered(t, k)
    ensures Rewrite(t, k) == [] && Meaning(t, x) == [] && forall y :: Decode([], y) == []
  {
    NothingLeft(t, k);
  }

  // ---- where it fails: the shell is ahead ----

  // Tokens that the rewritten text has still to say.
  predicate Owed(e: Token) {
    e.Token? && (IsHex(e.c) || (e.quoted && (e.c == 'x' || e.c == '\\' || e.c == '\'' || (e.c == '$' && e.live))))
  }

  predicate Pending(e: seq<Token>) { forall i :: 0 <= i < |e| ==> Owed(e[i]) }

  // How many of them are no backslashes; this never gets less.
  function Weight(e: seq<Token>): nat { if e == [] then 0 else Weighs(e[0]) + Weight(e[1..]) }

  function Weighs(x: Token): nat { if x.c == '\\' then 0 else 1 }

  lemma {:induction false} WeightBoth(a: seq<Token>, b: seq<Token>)
    ensures Weight(a + b) == Weight(a) + Weight(b)
  {
    if a == [] {
      assert a + b == b;
    } else {
      assert (a + b)[1..] == a[1..] + b;
      WeightBoth(a[1..], b);
    }
  }

  lemma {:induction false} WeightSize(e: seq<Token>)
    ensures Weight(e) <= |e|
  {
    if e != [] {
      WeightSize(e[1..]);
    }
  }

  lemma {:induction false} WeightAt(e: seq<Token>, i: nat)
    requires i < |e|
    ensures Weight(e) >= Weighs(e[i])
  {
    if i > 0 {
      WeightAt(e[1..], i - 1);
    }
  }

  lemma WeightOne(a: Token)
    ensures Weight([a]) == Weighs(a)
  {
    assert [a][1..] == [];
  }

  lemma WeightTwo(a: Token, b: Token)
    ensures Weight([a, b]) == Weighs(a) + Weighs(b)
  {
    WeightOne(b);
    assert [a, b][1..] == [b];
  }

  // If everything in ds is owed, so is everything in ms, and it weighs no less.
  predicate Covers(ms: seq<Token>, ds: seq<Token>) {
    Pending(ds) ==> Pending(ms) && Weight(ms) >= Weight(ds)
  }

  lemma NothingSaid(ms: seq<Token>)
    requires Pending(ms)
    ensures Covers(ms, [])
  {
  }

  lemma OneForOne(a: Token, b: Token)
    requires Owed(b) ==> Owed(a) && a.c == b.c
    ensures Covers([a], [b])
  {
    hide Owed;
    if Pending([b]) {
      assert Owed([b][0]) && [a][0] == a;
      WeightOne(a);
      WeightOne(b);
    }
  }

  lemma OneForTwo(c: char)
    ensures Covers([Literal(c)], [Literal('\\'), Literal(c)])
  {
    var ds := [Literal('\\'), Literal(c)];
    if Pending(ds) {
      assert Owed(ds[1]);
      WeightOne(Literal(c));
      WeightTwo(Literal('\\'), Literal(c));
    }
  }

  lemma TwoForOne(c: char, b: Token)
    requires Owed(b) ==> b == Literal('\'') && c == '\''
    ensures Covers([Literal('\\'), Literal(c)], [b])
  {
    if Pending([b]) {
      assert Owed([b][0]);
      WeightOne(b);
      WeightTwo(Literal('\\'), b);
    }
  }

  lemma HexOwes(t: string, x: Context, k: Mode)
    requires HexAt(t)
    ensures var u := BackslashUnit(t, x, k); Pending(u.ms) && Covers(u.ms, u.ds) && Weight(u.ms) >= 1
  {
    hide HexByte;
    var u := BackslashUnit(t, x, k);
    WeightAt(u.ms, 2);
    WeightSize(u.ds);
  }

  lemma BackslashOwes(t: string, x: Context, k: Mode)
    requires |t| > 1 && t[0] == '\\' && !x.Single? && Together(x, k)
    ensures var u := BackslashUnit(t, x, k); Covers(u.ms, u.ds) && |u.ds| == 1
  {
    var c := t[1];
    if HexAt(t) {
      HexOwes(t, x, k);
    } else if Escapes(t, x) {
      OneForOne(Literal(c), Literal(Control(c)));
    } else if Renamed(t) {
      TwoForOne(c, Literal(Control(c)));
    } else {
      OneForOne(Literal('\\'), Literal('\\'));
    }
  }

  lemma StrongOwes(t: string, x: Context)
    requires t != [] && Together(x, Strong) && !x.Single? && !Clash(t, x, Strong)
    ensures var u := StrongUnit(t, x);
            Covers(u.ms, u.ds) && (u.ds == [] || |u.ds| == 1 || (|u.ds| == 2 && u.ds[0] == Literal('\\')))
  {
    var c := t[0];
    if c == '\'' {
      NothingSaid([Literal(c)]);
    } else if Escapes(t, x) {
      OneForTwo(t[1]);
    } else if c == '\\' {
      OneForOne(Literal(c), Literal(c));
    } else {
      OneForOne(Literal(c), Token(c, !Free(Quote(x)), false));
    }
  }

  lemma DollarOwes(x: Context, k: Mode)
    ensures var d := [Token('$', !Free(x), true)];
            Covers(if Free(x) then [] else d, if k == Bare then [] else d)
  {
    var d := Token('$', !Free(x), true);
    NothingSaid([]);
    if !Free(x) {
      NothingSaid([d]);
      OneForOne(d, d);
    } else {
      assert !Owed([d][0]);
    }
  }

  // A step that says only what is owed leaves as much to be said.
  lemma UnitOwes(t: string, x: Context, k: Mode)
    requires t != [] && Together(x, k) && !Clash(t, x, k)
    ensures var u := UnitOf(t, x, k);
            Covers(u.ms, u.ds) && (u.ds == [] || |u.ds| == 1 || (|u.ds| == 2 && u.ds[0] == Literal('\\')))
  {
    hide Covers, Sound;
    if x.Single? {
      Same(UnitOf(t, x, k).ms);
    } else if k == Strong {
      StrongOwes(t, x);
    } else if t[0] == '\\' && |t| > 1 {
      BackslashOwes(t, x, k);
    } else if t[0] == '\'' {
      Same([Literal('\'')]);
      NothingSaid([Literal('\'')]);
      Same([]);
    } else if Dollared(t) {
      DollarOwes(x, k);
    } else {
      Same(UnitOf(t, x, k).ms);
    }
  }

  lemma Same(ms: seq<Token>)
    ensures Covers(ms, ms)
  {
  }

  // What is said where they clash is not owed.
  lemma ClashStep(t: string, x: Context, k: Mode)
    requires t != [] && Together(x, k) && Covered(t, k) && Clash(t, x, k)
    ensures var d := Decode(Rewrite(t, k), Reader(x, k));
            && d != [] && !Owed(d[0])
            && (k == Weak ==> d[0] == Token('\'', false, false)) && (k == Bare ==> d[0] == Literal('"'))
  {
    hide Covered, Rewrite, Decode, Escape;
    if k == Strong {
      RewriteStrong(t);
      var (c, y) := (t[0], Quote(x));
      ReaderSound(x);
      if Marked(c) {
        EscapeDecodes(c, Rewrite(t[1..], k), y);
      } else {
        Unmarked(c);
        assert !Begins([c] + Rewrite(t[1..], k));
        PlainDecodes(c, Rewrite(t[1..], k), y);
      }
    } else if k == Weak {
      RewriteWeak(t);
      assert !Begins("'" + Rewrite(t[1..], k));
      PlainDecodes('\'', Rewrite(t[1..], k), x);
    } else if x.Single? {
      StrayDecodes(t, x);
    } else {
      RewriteBare(t);
      RewriteBare(t[1..]);
      if Dollared(t[1..]) {
        RewriteBare(t[1..][1..]);
      }
      var out := Rewrite(t, k);
      assert out == ['\\', '"'] + out[2..];
      PairDecodes('"', out[2..], x);
    }
  }

  lemma Unmarked(c: char)
    requires !Marked(c) && c as int < 256
    ensures Escape(c) == [c]
  {
  }

  // A double quote where single quotes are open still.
  lemma StrayDecodes(t: string, x: Context)
    requires t != [] && x.Single? && Covered(t, Bare) && (t[0] == '\'' || Taken(t))
    ensures var d := Decode(Rewrite(t, Bare), x); d != [] && d[0] == Literal('"')
  {
    hide Covered, Rewrite, Decode;
    RewriteBare(t);
    if Dollared(t) {
      RewriteBare(t[1..]);
    }
    var out := Rewrite(t, Bare);
    assert out == ['"'] + out[1..];
    ExactDecodes('"', out[1..], x);
  }

  // Both sides of an equation without the tokens that one of them begins with.
  lemma Cancel(e: seq<Token>, ms: seq<Token>, rest: seq<Token>, ds: seq<Token>, d: seq<Token>)
    requires e + (ms + rest) == ds + d && |ds| <= |e|
    ensures ds == e[..|ds|] && (e[|ds|..] + ms) + rest == d
  {
    var all := e + (ms + rest);
    assert ds == (ds + d)[..|ds|] == all[..|ds|] == e[..|ds|];
    assert d == (ds + d)[|ds|..] == all[|ds|..];
    assert all == e[..|ds|] + (e[|ds|..] + ms + rest);
  }

  // ds has been said and ms is owed instead.
  lemma Exchanged(e: seq<Token>, ds: seq<Token>, ms: seq<Token>)
    requires |ds| <= |e| && ds == e[..|ds|] && Pending(e)
    ensures Pending(ds)
    ensures Pending(ms) ==> Pending(e[|ds|..] + ms)
    ensures Weight(e[|ds|..] + ms) == Weight(e) - Weight(ds) + Weight(ms)
  {
    hide Weight, Owed;
    WeightBoth(ds, e[|ds|..]);
    assert ds + e[|ds|..] == e;
    WeightBoth(e[|ds|..], ms);
  }

  // What a step says at most.
  lemma UnitFits(e: seq<Token>, r: seq<Token>, ds: seq<Token>, d: seq<Token>)
    requires Weight(e) >= 1 && e + r == ds + d && (ds == [] || |ds| == 1 || (|ds| == 2 && ds[0] == Literal('\\')))
    requires Pending(e)
    ensures |ds| <= |e|
  {
    WeightSize(e);
    if |ds| == 2 && |e| == 1 {
      assert (e + r)[0] == e[0] && (ds + d)[0] == ds[0] && Owed(e[0]);
      WeightOne(e[0]);
    }
  }

  lemma FirstOwed(e: seq<Token>)
    requires Pending(e) && e != []
    ensures Owed(e[0])
  {
  }

  lemma {:induction false} Ahead(e: seq<Token>, t: string, x: Context, k: Mode)
    requires Together(x, k) && Covered(t, k) && Pending(e) && Weight(e) >= 1
    ensures e + Meaning(t, x) != Decode(Rewrite(t, k), Reader(x, k))
    decreases |t|
  {
    hide UnitOf, Reader, Clash, Covered, Rewrite, Decode, Meaning, Weight, Pending, Together;
    WeightSize(e);
    if t == [] {
      EndOfText(t, x, k);
    } else if Clash(t, x, k) {
      FirstOwed(e);
      assert (e + Meaning(t, x))[0] == e[0];
      ClashStep(t, x, k);
    } else if e + Meaning(t, x) == Decode(Rewrite(t, k), Reader(x, k)) {
      MeaningStep(t, x, k);
      DecodeStep(t, x, k);
      UnitOwes(t, x, k);
      var u := UnitOf(t, x, k);
      var rest, d := Meaning(t[u.n..], u.x), Decode(Rewrite(t[u.n..], u.k), Reader(u.x, u.k));
      UnitFits(e, u.ms + rest, u.ds, d);
      Cancel(e, u.ms, rest, u.ds, d);
      Exchanged(e, u.ds, u.ms);
      assert Pending(u.ms) && Weight(u.ms) >= Weight(u.ds);
      Ahead(e[|u.ds|..] + u.ms, t[u.n..], u.x, u.k);
    }
  }

  // ---- where it fails: the rewritten text is ahead ----

  // Outside quotes the shell never says a single quote.
  lemma {:induction false} NoBareQuote(t: string, x: Context)
    ensures Token('\'', false, false) !in Meaning(t, x)
    decreases |t|
  {
    if t != [] {
      var s := Shell(t, x);
      NoBareQuote(t[s.n..], s.ctx);
      assert Token('\'', false, false) !in s.says;
    }
  }

  // Dollar signs outside quotes that the shell has still to say.
  predicate Early(e: seq<Token>) { e != [] && forall i :: 0 <= i < |e| ==> e[i] == Token('$', false, true) }

  lemma {:induction false} Behind(e: seq<Token>, t: string, x: Context, k: Mode)
    requires Together(x, k) && Covered(t, k) && Early(e)
    requires if x.Double? then k == Bare && Free(x.outer) else k == Weak && (Free(x) || x.Single?)
    requires x.Single? ==> Free(x.outer)
    ensures Meaning(t, x) != e + Decode(Rewrite(t, k), Reader(x, k))
    decreases |t|
  {
    hide Reader, Covered, Rewrite, Decode, Meaning;
    if t == [] {
      EndOfText(t, x, k);
    } else {
      var d := Decode(Rewrite(t, k), Reader(x, k));
      if Meaning(t, x) == e + d {
        ReadOnce(t, x);
        var s := Shell(t, x);
        assert Meaning(t, x)[0] == (e + d)[0] == e[0];
        assert s.says != [] ==> s.says[0] == e[0];
        if Clash(t, x, k) {
          ClashStep(t, x, k);
          assert (e + d)[|e|] == d[0];
          NoBareQuote(t, x);
        } else {
          MeaningStep(t, x, k);
          DecodeStep(t, x, k);
          var u := UnitOf(t, x, k);
          var rest, d' := Meaning(t[u.n..], u.x), Decode(Rewrite(t[u.n..], u.k), Reader(u.x, u.k));
          Cancel(e, u.ds, d', u.ms, rest);
          Behind(e[|u.ms|..] + u.ds, t[u.n..], u.x, u.k);
        }
      }
    }
  }

  // ---- where it fails: single quotes go astray ----

  // What the shell never says without a backslash, or has still to say.
  predicate Overdue(e: seq<Token>) {
    e != [] && forall i :: 0 <= i < |e| ==> e[i] == Literal('"') || e[i] == Token('$', false, true)
  }

  lemma {:induction false} NoSlash(t: string, x: Context)
    requires '\\' !in t
    ensures forall a :: a in Meaning(t, x) ==> a.c != '\\'
    decreases |t|
  {
    if t != [] {
      var s := Shell(t, x);
      NoSlash(t[s.n..], s.ctx);
    }
  }

  // The context in which the rewritten text is read then: the code alone is in a new pair of
  // quotes, or it is with the shell.
  function Astray(x: Context, k: Mode): Context { if k == Strong then Single(x) else x }

  predicate CanStray(x: Context, k: Mode) {
    && Sound(x)
    && match x
       case Group(_, _, _) => k != Bare
       case Single(o) => o.Group? && k != Strong
       case Double(o) => o.Group? && k == Bare
       case _ => false
  }

  // A double quote is said where the shell says nothing, so one more is overdue.
  lemma OneMore(e: seq<Token>, t: string, x: Context, k: Mode)
    requires t != [] && t[0] == '\'' && Covered(t, k) && CanStray(x, k) && Overdue(e)
    requires if k == Strong then x.Group? else x.Single? && k == Bare
    ensures var (y, k', d) := (Shell(t, x).ctx, if k == Strong then Bare else Strong, Literal('"'));
            && CanStray(y, k') && Covered(t[1..], k') && Overdue(e + [d]) && Meaning(t, x) == Meaning(t[1..], y)
            && e + Decode(Rewrite(t, k), Astray(x, k)) == (e + [d]) + Decode(Rewrite(t[1..], k'), Astray(y, k'))
  {
    hide Covered, Rewrite, Decode, Meaning;
    ReadOnce(t, x);
    if k == Strong {
      RewriteStrong(t);
      ExactDecodes('"', Rewrite(t[1..], Bare), Single(x));
    } else {
      RewriteBare(t);
      ExactDecodes('"', Rewrite(t[1..], Strong), x);
    }
  }

  // Anything else between the quotes that are the code's alone.
  lemma SlashOrPlain(t: string, x: Context)
    requires t != [] && t[0] != '\'' && Covered(t, Strong) && x.Group? && '\\' !in t
    ensures var d := Decode(Rewrite(t, Strong), Single(x));
            || (d != [] && d[0] == Literal('\\'))
            || (Meaning(t, x) != [] && !Overdue([Meaning(t, x)[0]]))
  {
    hide Covered, Rewrite, Decode, Meaning;
    RewriteStrong(t);
    var e := Escape(t[0]);
    if e[0] == '\\' {
      var out := Rewrite(t, Strong);
      assert out == ['\\'] + out[1..];
      ExactDecodes('\\', out[1..], Single(x));
    } else {
      ReadOnce(t, x);
      assert [Meaning(t, x)[0]][0] == Meaning(t, x)[0];
    }
  }

  lemma AstrayUnit(e: seq<Token>, t: string, x: Context, k: Mode, rest: seq<Token>, d: seq<Token>)
    requires t != [] && '\\' !in t && k != Strong && CanStray(x, k) && !Clash(t, x, k) && Overdue(e)
    requires var u := UnitOf(t, x, k); u.ms + rest == e + (u.ds + d)
    ensures var u := UnitOf(t, x, k);
            |u.ms| <= |e| && CanStray(u.x, u.k) && u.k != Strong && Overdue(e[|u.ms|..] + u.ds)
  {
    var u := UnitOf(t, x, k);
    assert u.ms != [] ==> u.ms[0] == (u.ms + rest)[0] == (e + (u.ds + d))[0] == e[0];
  }

  lemma FirstOverdue(e: seq<Token>)
    requires Overdue(e)
    ensures e != [] && Overdue([e[0]])
  {
  }

  // Without backslashes the shell does not catch up.
  lemma {:induction false} Overtaken(e: seq<Token>, t: string, x: Context, k: Mode)
    requires CanStray(x, k) && Covered(t, k) && '\\' !in t && Overdue(e)
    ensures Meaning(t, x) != e + Decode(Rewrite(t, k), Astray(x, k))
    decreases |t|
  {
    assert k == Strong ==> x.Group? && Astray(x, k) == Single(x);
    hide Covered, Rewrite, Decode, Meaning, UnitOf, CanStray, Overdue, Astray;
    FirstOverdue(e);
    var d := Decode(Rewrite(t, k), Astray(x, k));
    if t == [] {
      EndOfText(t, x, k);
    } else if Meaning(t, x) == e + d {
      assert Meaning(t, x)[0] == e[0];
      if t[0] == '\'' && (k == Strong || (x.Single? && k == Bare)) {
        OneMore(e, t, x, k);
        Overtaken(e + [Literal('"')], t[1..], Shell(t, x).ctx, if k == Strong then Bare else Strong);
      } else if k == Strong {
        assert d != [] ==> (e + d)[|e|] == d[0];
        SlashOrPlain(t, x);
        NoSlash(t, x);
      } else {
        AstrayStep(e, t, x, k);
        var u := UnitOf(t, x, k);
        Overtaken(e[|u.ms|..] + u.ds, t[u.n..], u.x, u.k);
      }
    }
  }

  lemma AstrayStep(e: seq<Token>, t: string, x: Context, k: Mode)
    requires t != [] && CanStray(x, k) && k != Strong && Covered(t, k) && '\\' !in t && Overdue(e)
    requires Meaning(t, x) == e + Decode(Rewrite(t, k), Astray(x, k))
    requires !(t[0] == '\'' && x.Single? && k == Bare)
    ensures var u := UnitOf(t, x, k);
            && 0 < u.n <= |t| && |u.ms| <= |e| && CanStray(u.x, u.k) && Covered(t[u.n..], u.k)
            && '\\' !in t[u.n..] && Overdue(e[|u.ms|..] + u.ds)
            && Meaning(t[u.n..], u.x) == (e[|u.ms|..] + u.ds) + Decode(Rewrite(t[u.n..], u.k), Astray(u.x, u.k))
  {
    hide Covered, Rewrite, Decode, Meaning, UnitOf;
    assert !Clash(t, x, k) by {
      ReadOnce(t, x);
      assert Meaning(t, x)[0] == e[0];
    }
    hide Overdue;
    MeaningStep(t, x, k);
    DecodeStep(t, x, k);
    var u := UnitOf(t, x, k);
    var rest, d := Meaning(t[u.n..], u.x), Decode(Rewrite(t[u.n..], u.k), Reader(u.x, u.k));
    AstrayUnit(e, t, x, k, rest, d);
    Cancel(e, u.ds, d, u.ms, rest);
  }


  // ---- the theorem ----

  lemma {:induction false} LostIsLost(t: string, x: Context, k: Mode)
    requires Synced(x, k) && Covered(t, k) && Judge(t, x, k) == Lost
    ensures Decode(Rewrite(t, k), Reader(x, k)) != Meaning(t, x)
    decreases |t|
  {
    assert t != [] && Together(x, k);
    hide UnitOf, Clash, Covered, Rewrite, Decode, Meaning, Reader, Fits, Strays, Synced, Shell, Judge;
    JudgeStep(t, x, k);
    if Clash(t, x, k) {
      ClashStep(t, x, k);
      ClashMeaning(t, x, k);
    } else {
      MeaningStep(t, x, k);
      DecodeStep(t, x, k);
      var u := UnitOf(t, x, k);
      if u.ms == u.ds && Synced(u.x, u.k) {
        LostIsLost(t[u.n..], u.x, u.k);
        SameFront(u.ms, Meaning(t[u.n..], u.x), Decode(Rewrite(t[u.n..], u.k), Reader(u.x, u.k)));
      } else {
        Parted(t, x, k);
      }
    }
  }

  lemma ClashMeaning(t: string, x: Context, k: Mode)
    requires t != [] && Synced(x, k) && Clash(t, x, k) && !Strays(t, x, k)
    ensures k != Strong
    ensures k == Bare ==> Meaning(t, x) != [] && Meaning(t, x)[0] != Literal('"')
    ensures k == Weak ==> Token('\'', false, false) !in Meaning(t, x)
  {
    NoBareQuote(t, x);
    hide Meaning;
    ReadOnce(t, x);
  }

  lemma {:induction false} StrayIsLost(t: string, x: Context, k: Mode)
    requires Synced(x, k) && Covered(t, k) && Judge(t, x, k) == Stray && '\\' !in t
    ensures Decode(Rewrite(t, k), Reader(x, k)) != Meaning(t, x)
    decreases |t|
  {
    assert t != [] && Together(x, k);
    hide UnitOf, Clash, Covered, Rewrite, Decode, Meaning, Reader, Fits, Synced, Shell, Judge;
    JudgeStep(t, x, k);
    if Clash(t, x, k) {
      StrayClash(t, x, k);
    } else {
      MeaningStep(t, x, k);
      DecodeStep(t, x, k);
      var u := UnitOf(t, x, k);
      StrayIsLost(t[u.n..], u.x, u.k);
      SameFront(u.ms, Meaning(t[u.n..], u.x), Decode(Rewrite(t[u.n..], u.k), Reader(u.x, u.k)));
    }
  }

  lemma StrayClash(t: string, x: Context, k: Mode)
    requires t != [] && Synced(x, k) && Covered(t, k) && Strays(t, x, k) && '\\' !in t
    ensures Decode(Rewrite(t, k), Reader(x, k)) != Meaning(t, x)
  {
    hide Covered, Rewrite, Decode, Meaning;
    ReadOnce(t, x);
    RewriteBare(t);
    ExactDecodes('"', Rewrite(t[1..], Strong), x);
    Overtaken([Literal('"')], t[1..], x.outer, Strong);
  }

  // The first step that the shell and the rewritten text take differently.
  lemma Parted(t: string, x: Context, k: Mode)
    requires t != [] && Synced(x, k) && Covered(t, k) && !Clash(t, x, k)
    requires var u := UnitOf(t, x, k); !(u.ms == u.ds && Synced(u.x, u.k))
    ensures Decode(Rewrite(t, k), Reader(x, k)) != Meaning(t, x)
  {
    hide Covered, Rewrite, Decode, Meaning, Reader, UnitOf, Clash, Weight, Pending, Early, HexAt, HexByte, Together;
    MeaningStep(t, x, k);
    DecodeStep(t, x, k);
    PartedUnit(t, x, k);
    var u := UnitOf(t, x, k);
    var rest, d := Meaning(t[u.n..], u.x), Decode(Rewrite(t[u.n..], u.k), Reader(u.x, u.k));
    if u.ms == [] {
      Behind(u.ds, t[u.n..], u.x, u.k);
    } else if u.ds == [] {
      Ahead(u.ms, t[u.n..], u.x, u.k);
    } else if u.ms[0] == u.ds[0] {
      var owed := u.ms[1..];
      Ahead(owed, t[u.n..], u.x, u.k);
      assert u.ms + rest == u.ds + (owed + rest);
      SameFront(u.ds, owed + rest, d);
    } else {
      assert (u.ms + rest)[0] != (u.ds + d)[0];
    }
  }

  // It says nothing to the shell, or the rewritten text says nothing, or they differ at once,
  // unless that is a character written in hexadecimal.
  lemma PartedUnit(t: string, x: Context, k: Mode)
    requires t != [] && Synced(x, k) && !Clash(t, x, k)
    requires var u := UnitOf(t, x, k); !(u.ms == u.ds && Synced(u.x, u.k))
    ensures var u := UnitOf(t, x, k);
            if u.ms == [] then Early(u.ds) && Free(u.x) && u.k == Weak
            else if u.ds == [] then Pending(u.ms) && Weight(u.ms) >= 1
            else if u.ms[0] == u.ds[0] then |u.ds| == 1 && Pending(u.ms[1..]) && Weight(u.ms[1..]) >= 1
            else true
  {
    hide BackslashUnit;
    if !x.Single? && k != Strong && t[0] == '\\' && |t| > 1 {
      PartedBackslash(t, x, k);
    } else {
      hide Weight;
      var u := UnitOf(t, x, k);
      if u.ds == [] && u.ms != [] {
        WeightOne(u.ms[0]);
      }
    }
  }

  lemma PartedBackslash(t: string, x: Context, k: Mode)
    requires |t| > 1 && t[0] == '\\' && !x.Single? && k != Strong
    ensures var u := BackslashUnit(t, x, k);
            && u.x == x && u.k != Strong && u.ms != [] && |u.ds| == 1
            && (u.ms[0] == u.ds[0] && u.ms != u.ds ==> Pending(u.ms[1..]) && Weight(u.ms[1..]) >= 1)
  {
    hide HexByte, Weight;
    var u := BackslashUnit(t, x, k);
    if HexAt(t) {
      WeightAt(u.ms[1..], 1);
    }
  }

  lemma SameFront(ds: seq<Token>, a: seq<Token>, d: seq<Token>)
    ensures ds + a == ds + d ==> a == d
  {
    assert (ds + a)[|ds|..] == a && (ds + d)[|ds|..] == d;
  }

  // The rewriting keeps the meaning of a text or loses it, as the scan says. Single quotes that
  // have gone astray lose it, too, unless the text has backslashes.
  lemma RewriteKeepsMeaning(t: string)
    requires Covered(t, Bare) && Readable(t, Top)
    ensures Judge(t, Top, Bare) == Kept ==> Decode(Rewrite(t, Bare), Top) == Meaning(t, Top)
    ensures Judge(t, Top, Bare) == Lost ==> Decode(Rewrite(t, Bare), Top) != Meaning(t, Top)
    ensures '\\' !in t ==> (Decode(Rewrite(t, Bare), Top) == Meaning(t, Top) <==> Judge(t, Top, Bare) == Kept)
  {
    hide Judge, Covered, Rewrite, Decode, Meaning;
    match Judge(t, Top, Bare)
    case Kept => KeptIsKept(t, Top, Bare);
    case Lost => LostIsLost(t, Top, Bare);
    case Stray => if '\\' !in t { StrayIsLost(t, Top, Bare); }
  }
}
