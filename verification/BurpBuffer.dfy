/** The growing buffer of burp.c. */
module BurpBuffer {
  import opened BurpText

  const NUL: char := '\0'

  class Burp {
    var data: array?<char>        // m_P
    var lth: nat
    var max: nat                  // the allocation has eight more
    var indent: nat
    var disableIndent: bool
    var ungetc: nat

    constructor ()
      ensures Valid() && Text() == "" && data == null
    {
      data, lth, max, indent, disableIndent, ungetc := null, 0, 0, 0, false, 0;
    }

    // Capacity: 1016, or that doubled less eight, some number of times.
    ghost predicate Valid()
      reads this
    {
      if data == null then lth == 0 && max == 0
      else data.Length == max + 8 && max >= 1016 && lth < max
    }

    ghost function Text(): (s: string)
      requires Valid()
      reads this, data
      ensures |s| == lth
    {
      if data == null then "" else data[..lth]
    }

    // increase_burp.
    method Increase()
      requires Valid()
      modifies this`data, this`max
      ensures Valid() && Text() == old(Text()) && data != null && fresh(data)
      ensures max == if old(data) == null then 1016 else 2 * old(max) - 8
      ensures max > old(max)
      ensures old(data) != null ==> data.Length >= old(data.Length) && data[..old(data.Length)] == old(data[..])
    {
      if data == null {
        data := new char[1024](_ => NUL);
        max := 1016;
        return;
      }
      var bytes := 2 * max;
      var bigger := new char[bytes];
      var keep := if data.Length < bytes then data.Length else bytes;
      forall k | 0 <= k < keep {
        bigger[k] := data[k];
      }
      data := bigger;
      max := bytes - 8;
    }

    // Growing until there is room for need more characters.
    method MakeRoom(need: nat)
      requires Valid()
      modifies this`data, this`max
      ensures Valid() && Text() == old(Text()) && max - lth > need && data != null
      ensures data == old(data) || fresh(data)
      ensures old(data) != null ==> data.Length >= old(data.Length) && data[..old(data.Length)] == old(data[..])
    {
      assert data != null ==> data[..data.Length] == data[..];
      while max - lth <= need
        invariant Valid() && Text() == old(Text())
        invariant data == old(data) || (data != null && fresh(data))
        invariant old(data) != null ==>
                    data != null && data.Length >= old(data.Length) && data[..old(data.Length)] == old(data[..])
        decreases lth + need + 1 - max
      {
        Increase();
      }
    }

    // burp_insert.
    method Insert(offset: nat, text: string)
      requires Valid() && offset <= lth
      modifies this`data, this`max, this`lth, data
      ensures Valid() && Text() == old(Text())[..offset] + text + old(Text())[offset..]
      ensures data != null && data[lth] == NUL
    {
      ghost var t := Text();
      var need := |text|;
      MakeRoom(need);
      assert data[..offset] == t[..offset] && data[offset..offset + (lth - offset)] == t[offset..];
      Move(data, offset, need, lth - offset, text);
      lth := lth + need;
      assert data[..lth] == t[..offset] + text + t[offset..];
      ghost var r := data[..lth];
      data[lth] := NUL;
      assert Text() == r;
    }

    // memmove of n characters up by need, and memcpy of text into the gap.
    static method Move(d: array<char>, offset: nat, need: nat, n: nat, text: string)
      requires |text| == need && offset + need + n <= d.Length
      modifies d
      ensures d[..offset + need + n] == old(d[..offset]) + text + old(d[offset..offset + n])
    {
      forall k | 0 <= k < n {
        d[offset + need + k] := d[offset + k];
      }
      forall k | 0 <= k < need {
        d[offset + k] := text[k];
      }
      assert d[..offset] == old(d[..offset]) && d[offset..offset + need] == text;
      assert d[offset + need..offset + need + n] == old(d[offset..offset + n]);
    }

    // burp_extend.
    method Extend(text: string)
      requires Valid()
      modifies this`data, this`max, this`lth, data
      ensures Valid() && Text() == old(Text()) + text
      ensures data != null && data[lth] == NUL
    {
      Insert(lth, text);
    }

    // burpc1.
    method Put1(c: char)
      requires Valid()
      modifies this`data, this`max, this`lth, data
      ensures Valid() && Text() == old(Text()) + [c]
      ensures data != null && data[lth] == NUL && (data == old(data) || fresh(data))
    {
      if max - lth < 2 {
        Increase();
      }
      data[lth] := c;
      lth := lth + 1;
      data[lth] := NUL;
    }

    method Indentation()
      requires Valid()
      modifies this`data, this`max, this`lth, data
      ensures Valid() && Text() == Indented(old(Text()), indent, disableIndent)
      ensures data == old(data) || fresh(data)
    {
      if lth > 0 && data[lth - 1] == '\n' {
        if !disableIndent {
          var i := 4 * indent;
          while i > 0
            invariant 0 <= i <= 4 * indent && Valid() && Text() == old(Text()) + Spaces(4 * indent - i)
            invariant data == old(data) || fresh(data)
          {
            Put1(' ');
            i := i - 1;
          }
        }
      }
    }

    // burpc.
    method Put(c: char)
      requires Valid()
      modifies this`data, this`max, this`lth, data
      ensures Valid() && Text() == Added(old(Text()), [c], indent, disableIndent)
      ensures data == old(data) || fresh(data)
    {
      Indentation();
      Put1(c);
      AddedOne(old(Text()), c, indent, disableIndent);
    }

    // burpn and burps.
    method PutText(s: string)
      requires Valid()
      modifies this`data, this`max, this`lth, data
      ensures Valid() && Text() == Added(old(Text()), s, indent, disableIndent)
    {
      if |s| > 0 {
        Indentation();
        for i := 0 to |s|
          invariant Valid() && (data == old(data) || fresh(data))
          invariant Text() == if i == 0 then Indented(old(Text()), indent, disableIndent)
                              else Added(old(Text()), s[..i], indent, disableIndent)
        {
          IndentedOnce(old(Text()), indent, disableIndent);
          AddedOne(Text(), s[i], indent, disableIndent);
          AddedNext(old(Text()), s, i, indent, disableIndent);
          Put(s[i]);
        }
        assert s[..|s|] == s;
      }
    }

    // burp_ungetc and burp_rtrim shorten the text without marking its new end.
    method Ungetc()
      requires Valid() && ungetc < lth
      modifies this`lth
      ensures Valid() && Text() == old(Text())[..ungetc]
    {
      lth := ungetc;
    }

    method Rtrim()
      requires Valid()
      modifies this`lth
      ensures Valid() && lth <= old(lth) && Text() == old(Text())[..lth]
      ensures (lth == 0 || Text()[lth - 1] != ' ') && forall k :: lth <= k < old(lth) ==> old(Text())[k] == ' '
    {
      var n: int := lth;
      while n > 0 && data[n - 1] == ' '
        invariant 0 <= n <= lth && forall k :: n <= k < lth ==> Text()[k] == ' '
      {
        n := n - 1;
      }
      lth := n;
    }

    // Where the text ends for the C library: before the first NUL, which is at z.
    ghost predicate EndsAt(z: int)
      reads this, data
    {
      data != null && lth <= z < data.Length && data[z] == NUL && forall k :: 0 <= k < z ==> data[k] != NUL
    }

    // burp_esc_quote.  It counts the quotes up to the NUL, and moves the text, which burp_ungetc
    // and burp_rtrim may have shortened, by that number: the text comes out escaped exactly
    // if no quote is left between its end and the NUL.
    method EscQuote(offset: nat, quote: char, ghost z: int)
      requires Valid() && EndsAt(z) && offset <= lth
      modifies this`data, this`max, this`lth, data
      ensures Valid() && lth == old(lth) + Quotes(old(data[offset..z]), quote)
      ensures Text() == old(Text())[..offset] + Escaped(old(Text())[offset..], quote) <==> quote !in old(data[lth..z])
    {
      hide Quotes, Escaped, Shifted, Slack;
      ghost var s := data[..z + 1];
      assert Text()[..offset] == s[..offset] && Text()[offset..] == s[offset..lth];
      assert data[offset..z] == s[offset..z] && data[lth..z] == s[lth..z];
      var cnt := Count(offset, quote, z);
      if cnt > 0 {
        ShiftedRight(s, offset, lth, z, quote);
        Widen(offset, quote, cnt, s);
        assert data[..lth + cnt] == data[..lth + cnt + 1][..lth + cnt];
        lth := lth + cnt;
      } else {
        Unmoved(s, offset, lth, z, quote);
        assert Text() == s[..lth];
      }
    }

    // The growing and the moving.
    method Widen(offset: nat, quote: char, cnt: nat, ghost s: string)
      requires Valid() && data != null && offset <= lth < |s| <= data.Length && s == data[..|s|]
      requires Quotes(s[offset..lth + 1], quote) <= cnt && Slack(s, offset, lth, cnt, quote) <= |s| - offset
      modifies this`data, this`max, data
      ensures Valid() && data != null && lth + cnt < max
      ensures data[..lth + cnt + 1] == Shifted(s, offset, lth, cnt, quote)
    {
      hide Quotes, Escaped, Shifted, Slack;
      ghost var d := data[..];
      GrowTo(lth + cnt + 2);
      assert data[..|d|] == d && d[..|s|] == s;
      assert data[..][..|d|] == d;
      assert data[..][..|s|] == s;
      assert data[offset..lth + 1] == s[offset..lth + 1];
      ShiftedPrefix(s, data[..], offset, lth, cnt, quote);
      Spread(data, offset, lth, cnt, quote);
    }

    // The quotes up to the NUL.
    method Count(offset: nat, quote: char, ghost z: int) returns (cnt: nat)
      requires Valid() && EndsAt(z) && offset <= lth
      ensures cnt == Quotes(data[offset..z], quote) && (cnt > 0 ==> quote != NUL)
    {
      hide Quotes;
      QuotesOfNone(data[..], offset, quote);
      cnt := 0;
      var p := offset;
      while data[p] != NUL
        invariant offset <= p <= z && cnt == Quotes(data[offset..p], quote)
        invariant cnt > 0 ==> quote != NUL
        decreases z - p
      {
        QuotesOfOne(data[..], offset, p, quote);
        assert data[..][offset..p] == data[offset..p] && data[..][offset..p + 1] == data[offset..p + 1];
        if data[p] == quote {
          cnt := cnt + 1;
        }
        p := p + 1;
      }
    }

    method GrowTo(need: nat)
      requires Valid() && data != null
      modifies this`data, this`max
      ensures Valid() && data != null && max >= need && (data == old(data) || fresh(data))
      ensures data.Length >= old(data.Length) && data[..old(data.Length)] == old(data[..])
    {
      while max < need
        invariant Valid() && data != null && (data == old(data) || fresh(data))
        invariant data.Length >= old(data.Length) && data[..old(data.Length)] == old(data[..])
        decreases need - max
      {
        Increase();
      }
    }

    // The characters from offset up to lth move up, the last one first, and every quote makes
    // room for a backslash; the cursor that writes is ahead of the one that reads by the number
    // of quotes yet to be read, and by the slack of quotes that are behind lth.
    static method Spread(d: array<char>, offset: nat, lth: nat, cnt: nat, quote: char)
      requires offset <= lth && lth + cnt < d.Length && cnt >= Quotes(d[offset..lth + 1], quote)
      modifies d
      requires Slack(d[..], offset, lth, cnt, quote) <= d.Length - offset
      ensures d[..lth + cnt + 1] == Shifted(old(d[..]), offset, lth, cnt, quote)
    {
      hide Quotes, Escaped, EscapedChar, Shifted, Slack;
      ghost var s := d[..];
      ghost var slack := cnt - Quotes(s[offset..lth + 1], quote);
      ShiftedIs(s, offset, lth, cnt, quote);
      var p: int, p1: int := lth, lth + cnt;
      ghost var top := lth + cnt + 1;
      assert s[offset..lth + 1] == d[offset..lth + 1];
      NothingEscaped(d[top..top], s[lth + 1..lth + 1], quote);
      while offset <= p
        invariant offset - 1 <= p <= lth && p <= p1 < top
        invariant p1 == p + slack + Quotes(s[offset..p + 1], quote)
        invariant d[..p1 + 1] == s[..p1 + 1]
        invariant d[p1 + 1..top] == Escaped(s[p + 1..lth + 1], quote)
        decreases p
      {
        QuotesOfOne(s, offset, p, quote);
        EscapedFirst(s, p, lth + 1, quote);
        assert d[p] == d[..p1 + 1][p] == s[p];
        ghost var before := d[..p1 + 1];
        p1 := MoveOne(d, p, p1, top, quote);
        assert d[..p1 + 1] == before[..p1 + 1] == s[..p1 + 1];
        p := p - 1;
      }
      QuotesOfNone(s, offset, quote);
      assert d[..top] == d[..p1 + 1] + d[p1 + 1..top];
    }

    // One character, and the backslash before it.
    static method MoveOne(d: array<char>, p: nat, p1: nat, ghost top: nat, quote: char) returns (p1': int)
      requires p <= p1 < top <= d.Length && (d[p] == quote ==> p < p1)
      modifies d
      ensures p1' == p1 - if old(d[p]) == quote then 2 else 1
      ensures d[..p1' + 1] == old(d[..p1' + 1])
      ensures d[p1' + 1..top] == EscapedChar(old(d[p]), quote) + old(d[p1 + 1..top])
    {
      var c := d[p];
      d[p1] := c;
      p1' := p1 - 1;
      if c == quote {
        d[p1'] := '\\';
        p1' := p1' - 1;
      }
    }
  }

  // The text a, cut off in front of a quote, becomes longer although there is nothing to escape.
  method QuoteBehind() returns (b: Burp)
    ensures b.Valid() && |b.Text()| == 2 && Escaped("a", '"') == "a"
  {
    b := new Burp();
    b.Put1('a');
    b.Put1('"');
    b.ungetc := 1;
    b.Ungetc();
    assert b.data[..2] == "a\"";
    assert b.data[0..2] == "a\"" && "a\""[..1] == "a";
    b.EscQuote(0, '"', 2);
  }
}
