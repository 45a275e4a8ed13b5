/** The rewriting of single quotes into double quotes, replaceSingleQuotes in fix_string.c. */
module QuoteRewrite {

  datatype Mode = Bare | Weak | Strong      // in_quotes: none, double, single

  predicate Live(c: char) { c == '$' || c == '`' }

  predicate Printable(c: char) { 32 <= c as int < 127 }

  function HexDigit(d: int): char
    requires 0 <= d < 16
  {
    if d < 10 then (d + '0' as int) as char else (d - 10 + 'a' as int) as char
  }

  // emit_hex.
  function Hex(c: char): string
    requires c as int < 256
  {
    ['\\', 'x', HexDigit(c as int / 16), HexDigit(c as int % 16)]
  }

  // The escape for a control character that has a name, or 0.
  function Name(c: char): char {
    match c as int
    case 7 => 'a'
    case 8 => 'b'
    case 9 => 't'
    case 10 => 'n'
    case 12 => 'f'
    case 13 => 'r'
    case _ => '\0'
  }

  // A character from between single quotes, for use between double quotes.
  function Escape(c: char): string
    requires c as int < 256
  {
    if c == '"' || c == '\\' || Live(c) then ['\\', c]
    else if Name(c) != '\0' then ['\\', Name(c)]
    else if !Printable(c) then Hex(c)
    else [c]
  }

  // The text is made of bytes, and the ANSI-C quotes $'...' do not open in it.
  predicate Covered(t: string, m: Mode) {
    t != [] ==>
      && t[0] as int < 256
      && match m
         case Bare =>
           if t[0] == '"' then Covered(t[1..], Weak)
           else if t[0] == '\'' then Covered(t[1..], Strong)
           else if t[0] == '\\' && |t| > 1 && t[1] == '\'' then Covered(t[2..], Bare)
           else !(t[0] == '$' && |t| > 1 && t[1] == '\'') && Covered(t[1..], Bare)
         case Weak => Covered(t[1..], if t[0] == '"' then Bare else Weak)
         case Strong => Covered(t[1..], if t[0] == '\'' then Bare else Strong)
  }

  // What the code turns t into.
  function Rewrite(t: string, m: Mode): string
    requires Covered(t, m)
  {
    if t == [] then ""
    else
      match m
      case Bare =>
        if t[0] == '"' then "\"" + Rewrite(t[1..], Weak)
        else if t[0] == '\'' then "\"" + Rewrite(t[1..], Strong)
        else if t[0] == '\\' && |t| > 1 && t[1] == '\'' then "\"\\'\"" + Rewrite(t[2..], Bare)
        else if t[0] == '$' && |t| > 1 && t[1] == '"' then Rewrite(t[1..], Bare)
        else [t[0]] + Rewrite(t[1..], Bare)
      case Weak => [t[0]] + Rewrite(t[1..], if t[0] == '"' then Bare else Weak)
      case Strong =>
        if t[0] == '\'' then "\"" + Rewrite(t[1..], Bare)
        else Escape(t[0]) + Rewrite(t[1..], Strong)
  }

  // ---- what comes out, character by character ----

  const HEX_DIGITS := "0123456789abcdef"

  // Printable characters come out as they are, those that mean something between double quotes
  // behind a backslash, and all others as C writes them, or in hexadecimal.
  lemma EscapeForms(c: char)
    requires c as int < 256
    ensures Escape(c) ==
            if c == '$' || c == '`' || c == '"' || c == '\\' then ['\\', c]
            else if ' ' <= c <= '~' then [c]
            else if c == '\n' then "\\n" else if c == '\t' then "\\t" else if c == '\r' then "\\r"
            else if c as int == 7 then "\\a" else if c as int == 8 then "\\b" else if c as int == 12 then "\\f"
            else "\\x" + [HEX_DIGITS[c as int / 16], HEX_DIGITS[c as int % 16]]
  {
    assert '\t' as int == 9 && '\n' as int == 10 && '\r' as int == 13;
    DigitForm(c as int / 16);
    DigitForm(c as int % 16);
  }

  lemma DigitForm(d: int)
    requires 0 <= d < 16
    ensures HexDigit(d) == HEX_DIGITS[d]
  {
    var digits := HEX_DIGITS;
    assert digits[0] == '0' && digits[1] == '1' && digits[2] == '2' && digits[3] == '3' && digits[4] == '4';
    assert digits[5] == '5' && digits[6] == '6' && digits[7] == '7' && digits[8] == '8' && digits[9] == '9';
    assert digits[10] == 'a' && digits[11] == 'b' && digits[12] == 'c' && digits[13] == 'd' && digits[14] == 'e';
  }

  function EscapeAll(s: string): string
    requires forall i :: 0 <= i < |s| ==> s[i] as int < 256
  {
    if s == "" then "" else Escape(s[0]) + EscapeAll(s[1..])
  }

  // Single quotes become double ones, and every character between them is escaped.
  lemma QuotedText(s: string, rest: string)
    requires '\'' !in s && (forall i :: 0 <= i < |s| ==> s[i] as int < 256) && Covered(rest, Bare)
    ensures Covered("'" + (s + ("'" + rest)), Bare)
    ensures Rewrite("'" + (s + ("'" + rest)), Bare) == "\"" + (EscapeAll(s) + ("\"" + Rewrite(rest, Bare)))
  {
    StrongText(s, rest);
    var t := "'" + (s + ("'" + rest));
    assert t[1..] == s + ("'" + rest);
  }

  lemma {:induction false} StrongText(s: string, rest: string)
    requires '\'' !in s && (forall i :: 0 <= i < |s| ==> s[i] as int < 256) && Covered(rest, Bare)
    ensures Covered(s + ("'" + rest), Strong)
    ensures Rewrite(s + ("'" + rest), Strong) == EscapeAll(s) + ("\"" + Rewrite(rest, Bare))
    decreases |s|
  {
    var close := "'" + rest;
    if s == "" {
      assert close[1..] == rest && s + close == close;
      assert "" + ("\"" + Rewrite(rest, Bare)) == "\"" + Rewrite(rest, Bare);
    } else {
      StrongText(s[1..], rest);
      hide Rewrite, Covered, Escape;
      StrongStep(s[0], s[1..] + close);
      assert [s[0]] + (s[1..] + close) == s + close;
      Associates(Escape(s[0]), EscapeAll(s[1..]), "\"" + Rewrite(rest, Bare));
    }
  }

  lemma StrongStep(c: char, t: string)
    requires Covered(t, Strong) && c as int < 256 && c != '\''
    ensures Covered([c] + t, Strong) && Rewrite([c] + t, Strong) == Escape(c) + Rewrite(t, Strong)
  {
    hide Escape;
    assert ([c] + t)[1..] == t;
  }

  lemma Associates(a: string, b: string, c: string)
    ensures a + (b + c) == a + b + c
  {
  }

  // Text without single quotes, in which no dollar sign stands before a double quote, is left
  // alone.
  lemma {:induction false} NothingToRewrite(t: string, m: Mode)
    requires '\'' !in t && m != Strong && (forall i :: 0 <= i < |t| ==> t[i] as int < 256)
    requires forall i {:trigger t[i]} :: 0 <= i < |t| - 1 ==> !(t[i] == '$' && t[i + 1] == '"')
    ensures Covered(t, m) && Rewrite(t, m) == t
    decreases |t|
  {
    if t != "" {
      var k := if t[0] == '"' then if m == Bare then Weak else Bare else m;
      forall i {:trigger t[1..][i]} | 0 <= i < |t[1..]| - 1 ensures !(t[1..][i] == '$' && t[1..][i + 1] == '"') {
        assert t[1..][i] == t[i + 1];
      }
      NothingToRewrite(t[1..], k);
      assert t == [t[0]] + t[1..];
      assert |t| > 1 ==> t[1] != '\'';
    }
  }

  // ---- the code ----

  // in_quotes: 0, or the quote that opened.
  function Flag(m: Mode): char {
    match m case Bare => '\0' case Weak => '"' case Strong => '\''
  }

  method EmitHex(c: char) returns (h: string)
    requires c as int < 256
    ensures h == Hex(c)
  {
    h := "\\x";
    var c1 := c as int / 16;
    h := h + [if c1 < 10 then (c1 + '0' as int) as char else (c1 + 'a' as int - 10) as char];
    c1 := c as int % 16;
    h := h + [if c1 < 10 then (c1 + '0' as int) as char else (c1 + 'a' as int - 10) as char];
  }

  // replaceSingleQuotes, for text without ANSI-C quotes.
  method ReplaceSingleQuotes(text: string) returns (out: string)
    requires Covered(text, Bare)
    ensures out == Rewrite(text, Bare)
  {
    hide Covered, Rewrite;
    out := "";
    var p, inQuotes := 0, '\0';
    ghost var m := Bare;
    assert text[0..] == text;
    while p < |text|
      invariant p <= |text| && inQuotes == Flag(m) && Covered(text[p..], m)
      invariant Rewrite(text, Bare) == out + Rewrite(text[p..], m)
      decreases |text| - p
    {
      var e, n;
      e, n, inQuotes, m := Next(text, p, inQuotes, m);
      out := out + e;
      p := p + n;
    }
    NothingLeft(text[p..], m);
  }

  lemma NothingLeft(t: string, m: Mode)
    requires t == [] && Covered(t, m)
    ensures Rewrite(t, m) == []
  {
  }

  // One round of its loop: what is put out for how many characters.
  method Next(text: string, p: nat, inQuotes: char, ghost m: Mode)
    returns (e: string, n: nat, inQuotes': char, ghost m': Mode)
    requires p < |text| && inQuotes == Flag(m) && Covered(text[p..], m)
    ensures 0 < n <= |text| - p && inQuotes' == Flag(m') && Covered(text[p + n..], m')
    ensures Rewrite(text[p..], m) == e + Rewrite(text[p + n..], m')
  {
    ghost var rest := text[p..];
    assert rest[1..] == text[p + 1..] && (|rest| > 1 ==> rest[2..] == text[p + 2..]);
    var c := text[p];
    e, n, inQuotes', m' := [c], 1, inQuotes, m;
    if inQuotes == '\'' && c != '\'' {
      e := EscapeStrong(c);
    } else if c == '"' {
      if inQuotes == '\0' {
        inQuotes', m' := c, Weak;
      } else {
        inQuotes', m' := '\0', Bare;
      }
    } else if c == '\'' {
      if inQuotes == '\0' {
        e, inQuotes', m' := "\"", c, Strong;
      } else if inQuotes == '\'' {
        e, inQuotes', m' := "\"", '\0', Bare;
      }
    } else if inQuotes == '\0' && p + 1 < |text| {
      if c == '$' && text[p + 1] == '"' {
        e := "";
      } else if c == '\\' && text[p + 1] == '\'' {
        e, n := "\"\\'\"", 2;
      }
    }
  }

  // A character between single quotes that does not close them.
  method EscapeStrong(c: char) returns (e: string)
    requires c as int < 256 && c != '\''
    ensures e == Escape(c)
  {
    if c == '"' || c == '$' || c == '\\' || c == '`' {
      return ['\\', c];
    }
    if c == '\n' {
      return "\\n";
    }
    if !Printable(c) {
      match c as int {
        case 7 => e := "\\a";
        case 8 => e := "\\b";
        case 12 => e := "\\f";
        case 13 => e := "\\r";
        case 9 => e := "\\t";
        case _ => e := EmitHex(c);
      }
      return;
    }
    e := [c];
  }
}
