/** What the operations of burp.c make of the text in a buffer. */
module BurpText {

  // A quote gets a backslash in front.
  function EscapedChar(c: char, quote: char): string {
    if c == quote then ['\\', c] else [c]
  }

  function Escaped(s: string, quote: char): string {
    if s == [] then [] else EscapedChar(s[0], quote) + Escaped(s[1..], quote)
  }

  function Quotes(s: string, quote: char): nat {
    if s == [] then 0 else Quotes(s[..|s| - 1], quote) + if s[|s| - 1] == quote then 1 else 0
  }

  // A backslash before a quote is taken away.
  function Unescaped(s: string, quote: char): string
    decreases |s|
  {
    if s == [] then []
    else if s[0] == '\\' && |s| > 1 && s[1] == quote then [quote] + Unescaped(s[2..], quote)
    else [s[0]] + Unescaped(s[1..], quote)
  }

  lemma {:induction false} EscapeRoundTrip(s: string, quote: char)
    ensures Unescaped(Escaped(s, quote), quote) == s
  {
    if s != [] {
      var e, rest := Escaped(s, quote), Escaped(s[1..], quote);
      EscapeRoundTrip(s[1..], quote);
      if s[0] == quote {
        assert e[2..] == rest;
      } else {
        assert e[1..] == rest;
        if rest != [] && quote != '\\' {
          StartsEscaped(s[1..], quote);
        }
      }
      assert s == [s[0]] + s[1..];
    }
  }

  // An escaped text does not begin with a quote, unless that is the backslash itself.
  lemma StartsEscaped(s: string, quote: char)
    requires s != [] && quote != '\\'
    ensures Escaped(s, quote) != [] && Escaped(s, quote)[0] != quote
  {
  }

  lemma {:induction false} EscapedSize(s: string, quote: char)
    ensures |Escaped(s, quote)| == |s| + Quotes(s, quote)
  {
    if s != [] {
      EscapedSize(s[1..], quote);
      QuotesFront(s, quote);
    }
  }

  lemma {:induction false} QuotesFront(s: string, quote: char)
    requires s != []
    ensures Quotes(s, quote) == (if s[0] == quote then 1 else 0) + Quotes(s[1..], quote)
    decreases |s|
  {
    var n := |s| - 1;
    if n > 0 {
      QuotesFront(s[..n], quote);
      assert s[..n][1..] == s[1..][..n - 1];
    } else {
      assert s[..0] == [] && s[1..] == [];
    }
  }

  // ---- indentation ----

  function Spaces(n: int): string {
    if n <= 0 then "" else Spaces(n - 1) + " "
  }

  lemma {:induction false} SpacesAre(n: int)
    ensures |Spaces(n)| == (if n < 0 then 0 else n) && forall i :: 0 <= i < |Spaces(n)| ==> Spaces(n)[i] == ' '
  {
    if n > 0 {
      SpacesAre(n - 1);
    }
  }

  // The text with what goes before the next character.
  function Indented(t: string, indent: int, disabled: bool): string {
    if t != [] && t[|t| - 1] == '\n' && !disabled then t + Spaces(4 * indent) else t
  }

  // The text after some characters have been added.
  function Added(t: string, s: string, indent: int, disabled: bool): string {
    if s == [] then t else Indented(Added(t, s[..|s| - 1], indent, disabled), indent, disabled) + [s[|s| - 1]]
  }

  // Without newlines, in the middle of a line, text is just appended.
  lemma {:induction false} AddedPlain(t: string, s: string, indent: int, disabled: bool)
    requires disabled || ('\n' !in s && (t == [] || t[|t| - 1] != '\n'))
    ensures Added(t, s, indent, disabled) == t + s
    decreases |s|
  {
    if s != [] {
      AddedPlain(t, s[..|s| - 1], indent, disabled);
      assert s == s[..|s| - 1] + [s[|s| - 1]];
    }
  }

  // Every character that follows a newline follows the spaces of its line.
  lemma {:induction false} AddedLine(t: string, s: string, rest: string, indent: int)
    requires rest != [] && '\n' !in rest[..|rest| - 1] && indent > 0
    ensures Added(t, s + "\n" + rest, indent, false) == Added(t, s + "\n", indent, false) + Spaces(4 * indent) + rest
    decreases |rest|
  {
    hide Spaces, Indented;
    var n, line := |rest| - 1, s + "\n";
    var before := Added(t, line, indent, false);
    assert (line + rest)[..|line + rest| - 1] == line + rest[..n];
    var more := Added(t, line + rest[..n], indent, false);
    assert Added(t, line + rest, indent, false) == Indented(more, indent, false) + [rest[n]];
    if n == 0 {
      assert line + rest[..0] == line && rest == [rest[0]];
      AfterNewline(before, indent);
    } else {
      AddedLine(t, s, rest[..n], indent);
      WithinLine(more, indent);
      assert rest == rest[..n] + [rest[n]];
    }
  }

  lemma AfterNewline(t: string, indent: int)
    ensures t != [] && t[|t| - 1] == '\n' ==> Indented(t, indent, false) == t + Spaces(4 * indent)
  {
  }

  lemma WithinLine(t: string, indent: int)
    ensures t != [] && t[|t| - 1] != '\n' ==> Indented(t, indent, false) == t
  {
  }

  lemma AddedOne(t: string, c: char, indent: int, disabled: bool)
    ensures Added(t, [c], indent, disabled) == Indented(t, indent, disabled) + [c]
  {
    assert [c][..0] == [];
  }

  lemma AddedNext(t: string, s: string, i: nat, indent: int, disabled: bool)
    requires i < |s|
    ensures Added(t, s[..i + 1], indent, disabled) ==
            Indented(Added(t, s[..i], indent, disabled), indent, disabled) + [s[i]]
  {
    assert s[..i + 1][..i] == s[..i];
  }

  // A line is indented once.
  lemma IndentedOnce(t: string, indent: nat, disabled: bool)
    ensures Indented(Indented(t, indent, disabled), indent, disabled) == Indented(t, indent, disabled)
  {
    if indent > 0 {
      assert Spaces(4 * indent) == Spaces(4 * indent - 1) + " ";
      assert (t + Spaces(4 * indent))[|t + Spaces(4 * indent)| - 1] == ' ';
    } else {
      assert t + "" == t;
    }
  }

  // Counting up to the NUL behind a shortened text is right only if no quote is left there.
  lemma {:induction false} NoMore(s: string, t: string, quote: char)
    ensures Quotes(s, quote) <= Quotes(s + t, quote) <= Quotes(s, quote) + |t|
    ensures Quotes(s + t, quote) == Quotes(s, quote) <==> quote !in t
    decreases |t|
  {
    if t == [] {
      assert s + t == s;
    } else {
      var t' := t[..|t| - 1];
      assert (s + t)[..|s + t| - 1] == s + t';
      NoMore(s, t', quote);
      assert t == t' + [t[|t| - 1]];
    }
  }

  // The same for a text with the character behind it, s[z] being the NUL.
  lemma NoMoreAt(s: string, i: nat, lth: nat, z: nat, quote: char)
    requires i <= lth <= z < |s| && quote != s[z]
    ensures Quotes(s[i..lth + 1], quote) <= Quotes(s[i..z], quote) <= Quotes(s[i..lth + 1], quote) + z - lth
    ensures quote !in s[lth..z] ==> quote != s[lth] && Quotes(s[i..lth + 1], quote) == Quotes(s[i..z], quote)
  {
    hide Quotes;
    if lth == z {
      QuotesOfOne(s, i, z, quote);
    } else {
      NoMore(s[i..lth + 1], s[lth + 1..z], quote);
      assert s[i..z] == s[i..lth + 1] + s[lth + 1..z];
      assert s[lth] == s[lth..z][0];
      assert forall k :: lth + 1 <= k < z ==> s[k] == s[lth..z][k - lth];
    }
  }

  // What the moving makes of a buffer s with a text that ends at lth and room for cnt quotes,
  // up to and including the character behind the text.
  function Shifted(s: string, offset: nat, lth: nat, cnt: nat, quote: char): string
    requires offset <= lth < |s| && Slack(s, offset, lth, cnt, quote) <= |s| - offset
  {
    s[..offset + Slack(s, offset, lth, cnt, quote)] + Escaped(s[offset..lth + 1], quote)
  }

  // The room for quotes that are not there.
  function Slack(s: string, offset: nat, lth: nat, cnt: nat, quote: char): nat
    requires offset <= lth < |s|
  {
    var n := Quotes(s[offset..lth + 1], quote);
    if n <= cnt then cnt - n else 0
  }

  lemma ShiftedIs(s: string, offset: nat, lth: nat, cnt: nat, quote: char)
    requires offset <= lth < |s| && Slack(s, offset, lth, cnt, quote) <= |s| - offset
    requires Quotes(s[offset..lth + 1], quote) <= cnt
    ensures var slack := cnt - Quotes(s[offset..lth + 1], quote);
            && offset + slack <= |s|
            && Shifted(s, offset, lth, cnt, quote) == s[..offset + slack] + Escaped(s[offset..lth + 1], quote)
  {
  }

  lemma ShiftedPrefix(s: string, u: string, offset: nat, lth: nat, cnt: nat, quote: char)
    requires offset <= lth < |s| <= |u| && u[..|s|] == s && Slack(s, offset, lth, cnt, quote) <= |s| - offset
    ensures Slack(u, offset, lth, cnt, quote) == Slack(s, offset, lth, cnt, quote)
    ensures Shifted(u, offset, lth, cnt, quote) == Shifted(s, offset, lth, cnt, quote)
  {
    hide Quotes, Escaped;
    assert u == s + u[|s|..];
    assert u[offset..lth + 1] == s[offset..lth + 1];
    var n := offset + Slack(s, offset, lth, cnt, quote);
    assert u[..n] == s[..n];
  }

  // With the quotes up to the NUL, at z, counted, the text is right exactly if they are all
  // in the text.
  lemma ShiftedRight(s: string, offset: nat, lth: nat, z: nat, quote: char)
    requires offset <= lth <= z < |s| && quote != s[z]
    ensures var cnt := Quotes(s[offset..z], quote);
            && Quotes(s[offset..lth + 1], quote) <= cnt && Slack(s, offset, lth, cnt, quote) <= |s| - offset
            && var r := Shifted(s, offset, lth, cnt, quote);
               && |r| == lth + 1 + cnt
               && (r[..lth + cnt] == s[..offset] + Escaped(s[offset..lth], quote) <==> quote !in s[lth..z])
  {
    hide Quotes, Escaped;
    EscapedSize(s[offset..lth + 1], quote);
    EscapedSize(s[offset..lth], quote);
    NoMore(s[offset..lth], s[lth..z], quote);
    assert s[offset..z] == s[offset..lth] + s[lth..z];
    NoMoreAt(s, offset, lth, z, quote);
    if quote !in s[lth..z] {
      EscapedLast(s[offset..lth], s[lth], quote);
      assert s[offset..lth + 1] == s[offset..lth] + [s[lth]];
    }
  }

  // Without quotes nothing is to be moved.
  lemma Unmoved(s: string, offset: nat, lth: nat, z: nat, quote: char)
    requires offset <= lth <= z <= |s| && Quotes(s[offset..z], quote) == 0
    ensures s[..lth] == s[..offset] + Escaped(s[offset..lth], quote) && quote !in s[lth..z]
  {
    hide Quotes, Escaped;
    assert s[offset..z] == s[offset..lth] + s[lth..z];
    NoMore(s[offset..lth], s[lth..z], quote);
    NoQuotes(s[offset..lth], quote);
    assert s[..lth] == s[..offset] + s[offset..lth];
  }

  lemma {:induction false} NoQuotes(s: string, quote: char)
    requires Quotes(s, quote) == 0
    ensures Escaped(s, quote) == s
  {
    if s != [] {
      QuotesFront(s, quote);
      NoQuotes(s[1..], quote);
      assert s == [s[0]] + s[1..];
    }
  }

  lemma {:induction false} EscapedLast(s: string, c: char, quote: char)
    requires c != quote
    ensures Escaped(s + [c], quote) == Escaped(s, quote) + [c]
  {
    if s == [] {
      assert s + [c] == [c] && [c][1..] == [];
    } else {
      EscapedLast(s[1..], c, quote);
      assert (s + [c])[1..] == s[1..] + [c];
    }
  }

  lemma QuotesOfOne(s: string, i: nat, j: nat, quote: char)
    requires i <= j < |s|
    ensures Quotes(s[i..j + 1], quote) == Quotes(s[i..j], quote) + if s[j] == quote then 1 else 0
  {
    assert s[i..j + 1][..j - i] == s[i..j];
  }

  lemma QuotesOfNone(s: string, i: nat, quote: char)
    requires i <= |s|
    ensures Quotes(s[i..i], quote) == 0
  {
  }

  lemma EscapedFirst(s: string, i: nat, j: nat, quote: char)
    requires i < j <= |s|
    ensures Escaped(s[i..j], quote) == EscapedChar(s[i], quote) + Escaped(s[i + 1..j], quote)
  {
    assert s[i..j][1..] == s[i + 1..j];
  }

  lemma NothingEscaped(s: string, t: string, quote: char)
    requires s == [] && t == []
    ensures s == Escaped(t, quote)
  {
  }
}
