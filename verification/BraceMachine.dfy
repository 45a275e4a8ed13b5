/** brace_expand and its helpers (braces.c) as the loops they are, each proved to compute
    what BraceText says. */
module BraceMachine {
  import opened BraceText
  import BraceTree

  // brace_gobbler: moves *indx on to the character that ends the search and returns it, or
  // NUL at the end of the text.
  method BraceGobbler(text: string, indx: nat, satisfy: char) returns (c: char, i: nat)
    requires NoCommandSubst(text) && indx <= |text|
    requires satisfy == '{' || satisfy == '}' || satisfy == ','
    ensures i == Find(text, indx, satisfy)
    ensures c == if i < |text| then satisfy else '\0'
  {
    hide NoCommandSubst, Level, Commas, PlainOpen;
    var level, quoted, passNext := 0, '\0', false;
    var commas := if satisfy == '}' then 0 else 1;
    i := indx;
    while i < |text|
      invariant i <= |text| && (quoted == '\0' || IsQuote(quoted))
      invariant !passNext ==> Find(text, indx, satisfy) == Gobble(text, i, satisfy, level, commas, quoted)
      invariant passNext ==> Find(text, indx, satisfy) ==
                             if i == |text| then i else Gobble(text, i + 1, satisfy, level, commas, quoted)
    {
      c := text[i];
      if passNext {
        passNext := false;
        i := i + 1;
        continue;
      }
      if c == '\\' && (quoted == '\0' || quoted == '"' || quoted == '`') {
        passNext := true;
        i := i + 1;
        continue;
      }
      if c == '$' && At(text, i + 1) == '{' && quoted != '\'' {
        passNext := true;
        i := i + 1;
        if quoted == '\0' {
          level := level + 1;
        }
        continue;
      }
      if quoted != '\0' {
        if c == quoted {
          quoted := '\0';
        }
        i := i + 1;
        continue;
      }
      if c == '"' || c == '\'' || c == '`' {
        quoted := c;
        i := i + 1;
        continue;
      }
      if c == satisfy && level == 0 && quoted == '\0' && commas > 0 {
        if c == '{' && PlainOpen(text, i) {
          i := i + 1;
          continue;
        }
        return;
      }
      level, commas := Count(text, i, satisfy, level, commas);
      i := i + 1;
    }
    c := '\0';
  }

  // The end of brace_gobbler's loop body: an ordinary character at i.
  method Count(text: string, i: nat, satisfy: char, level0: nat, commas0: nat) returns (level: nat, commas: nat)
    requires i < |text|
    ensures level == Level(text, i, level0) && commas == Commas(text, i, satisfy, level0, commas0)
  {
    var c := text[i];
    level, commas := level0, commas0;
    if c == '{' {
      level := level + 1;
    } else if c == '}' && level > 0 {
      level := level - 1;
    } else if satisfy == '}' && c == ',' && level == 0 {
      commas := commas + 1;
    } else if satisfy == '}' && c == '.' && At(text, i + 1) == '.' && At(text, i + 2) != satisfy && level == 0 {
      commas := commas + 1;
    }
  }

  // array_concat: every string of arr1 followed by every string of arr2.
  method ArrayConcat(arr1: seq<string>, arr2: seq<string>) returns (result: seq<string>)
    ensures result == Product(arr1, arr2)
  {
    if arr1 == [""] {
      BraceTree.ProductNeutral(arr2);
      return arr2;
    }
    if arr2 == [""] {
      BraceTree.ProductNeutral(arr1);
      return arr1;
    }
    result := [];
    var i := 0;
    while i < |arr1|
      invariant i <= |arr1|
      invariant result == Product(arr1[..i], arr2)
    {
      var j := 0;
      ghost var before := result;
      while j < |arr2|
        invariant j <= |arr2|
        invariant result == before + Prefixed(arr1[i], arr2)[..j]
      {
        result := result + [arr1[i] + arr2[j]];
        j := j + 1;
      }
      assert arr1[..i + 1] == arr1[..i] + [arr1[i]];
      BraceTree.ProductConcat(arr1[..i], [arr1[i]], arr2);
      BraceTree.ProductOne(arr1[i], arr2);
      i := i + 1;
    }
    assert arr1[..i] == arr1;
  }

  // Does the amble hold a separator that no backslash protects?
  method FindSeparator(amble: string) returns (found: bool)
    ensures found == HasComma(amble, 0)
  {
    var j := 0;
    while j < |amble|
      invariant HasComma(amble, 0) == HasComma(amble, j)
      decreases |amble| - j
    {
      if amble[j] == '\\' {
        j := j + 2;
      } else if amble[j] == ',' {
        return true;
      } else {
        j := j + 1;
      }
    }
    found := false;
  }

  lemma SubstringModelled(text: string, a: nat, b: nat)
    requires NoCommandSubst(text) && a <= b <= |text|
    ensures NoCommandSubst(text[a..b])
  {
    var u := text[a..b];
    forall i | 0 <= i < |u| - 1
      ensures !((u[i] == '$' || u[i] == '<' || u[i] == '>') && u[i + 1] == '(')
    {
      assert u[i] == text[a + i] && u[i + 1] == text[a + i + 1];
    }
  }

  // The first loop of brace_expand: the end of the preamble, which is the whole text if no
  // open brace has a closing one.
  method FindPreamble(text: string) returns (i: nat)
    requires NoCommandSubst(text)
    ensures i == FindOpen(text, 0)
  {
    hide Find;
    var c;
    c, i := BraceGobbler(text, 0, '{');
    while c != '\0'
      invariant i <= |text| && (c == '\0' <==> i == |text|)
      invariant FindOpen(text, 0) == if i == |text| then i
                                     else if Find(text, i + 1, '}') < |text| then i
                                     else FindOpen(text, i + 1)
      decreases |text| - i
    {
      var c1, j := BraceGobbler(text, i + 1, '}');
      if c1 != '\0' {
        break;
      }
      c, i := BraceGobbler(text, i + 1, '{');
    }
  }

  method Expand(text: string, st: SeqTerm) returns (result: seq<string>)
    requires NoCommandSubst(text)
    ensures result == BraceExpand(text, st)
    decreases |text|, 0
  {
    hide Find, FindOpen, HasComma, Product;
    var i := FindPreamble(text);
    if i == |text| {
      return [text];
    }
    var c;
    var start := i + 1;
    var preamble := text[..i];
    c, i := BraceGobbler(text, start, '}');
    var amble := text[start..i];
    SubstringModelled(text, start, i);
    SubstringModelled(text, i + 1, |text|);
    assert text[i + 1..|text|] == text[i + 1..];
    var tack;
    var separated := FindSeparator(amble);
    if separated {
      tack := Amble(amble, st);
    } else {
      var terms := st(amble);
      if terms.Some? {
        tack := terms.value;
      } else if i + 1 < |text| {
        tack := [text[start - 1..i + 1]];
      } else {
        return [text];
      }
    }
    result := ArrayConcat([preamble], tack);
    var postamble := text[i + 1..];
    if postamble != "" {
      var more := Expand(postamble, st);
      result := ArrayConcat(result, more);
    }
  }

  // expand_amble.
  method Amble(text: string, st: SeqTerm) returns (result: seq<string>)
    requires NoCommandSubst(text)
    ensures result == ExpandAmble(text, 0, st)
    decreases |text|, 1
  {
    hide Find, BraceExpand;
    result := [];
    var start, i, c := 0, 0, ',';
    while c != '\0'
      invariant c == '\0' || c == ','
      invariant c != '\0' ==> start == i <= |text|
      invariant ExpandAmble(text, 0, st) == result + (if c == '\0' then [] else ExpandAmble(text, start, st))
      decreases c != '\0', |text| - start
    {
      c, i := BraceGobbler(text, i, ',');
      SubstringModelled(text, start, i);
      var partial := Expand(text[start..i], st);
      ghost var before := result;
      result := result + partial;
      assert c != '\0' ==> before + (partial + ExpandAmble(text, i + 1, st)) == result + ExpandAmble(text, i + 1, st);
      i := i + 1;
      start := i;
    }
  }
}
