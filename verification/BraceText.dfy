/** What brace expansion (braces.c) computes, as functions of the text. */
module BraceText {
  import opened Options

  // A C string: reading outside it gives NUL.
  function At(s: string, i: int): char {
    if 0 <= i < |s| then s[i] else '\0'
  }

  // brace_whitespace: the end of the text counts as white space.
  predicate BraceWhite(c: char) { c == '\0' || c == ' ' || c == '\t' || c == '\n' }

  predicate IsQuote(c: char) { c == '"' || c == '\'' || c == '`' }

  // The texts on which the gobbler does not call extract_command_subst.
  predicate NoCommandSubst(text: string) {
    forall i :: 0 <= i < |text| - 1 ==> !((text[i] == '$' || text[i] == '<' || text[i] == '>') && text[i + 1] == '(')
  }

  // An open brace that is left alone: between blanks, or an empty {} after a blank.
  predicate PlainOpen(text: string, i: nat) {
    && (i == 0 || BraceWhite(At(text, i - 1)))
    && (BraceWhite(At(text, i + 1)) || At(text, i + 1) == '}')
  }

  // What an ordinary character at i does to the brace level and to the count of separators.
  function Level(text: string, i: nat, level: nat): nat {
    if At(text, i) == '{' then level + 1 else if At(text, i) == '}' && level > 0 then level - 1 else level
  }

  function Commas(text: string, i: nat, satisfy: char, level: nat, commas: nat): nat {
    if satisfy == '}' && level == 0 &&
       (At(text, i) == ',' || (At(text, i) == '.' && At(text, i + 1) == '.' && At(text, i + 2) != '}'))
    then commas + 1 else commas
  }

  // brace_gobbler: the index at or after i of the character that satisfies the search, or
  // the length of the text.  quoted is the open quote, or NUL.
  function Gobble(text: string, i: nat, satisfy: char, level: nat, commas: nat, quoted: char): (r: nat)
    requires i <= |text|
    ensures i <= r <= |text|
    ensures r < |text| ==> text[r] == satisfy
    decreases |text| - i
  {
    if i == |text| then i
    else
      var c := text[i];
      if c == '\\' && quoted != '\'' then
        if i + 1 == |text| then i + 1 else Gobble(text, i + 2, satisfy, level, commas, quoted)
      else if c == '$' && At(text, i + 1) == '{' && quoted != '\'' then
        Gobble(text, i + 2, satisfy, if quoted == '\0' then level + 1 else level, commas, quoted)
      else if quoted != '\0' then
        Gobble(text, i + 1, satisfy, level, commas, if c == quoted then '\0' else quoted)
      else if IsQuote(c) then Gobble(text, i + 1, satisfy, level, commas, c)
      else if c == satisfy && level == 0 && commas > 0 then
        if c == '{' && PlainOpen(text, i) then Gobble(text, i + 1, satisfy, level, commas, quoted) else i
      else Gobble(text, i + 1, satisfy, Level(text, i, level), Commas(text, i, satisfy, level, commas), quoted)
  }

  function Find(text: string, i: nat, satisfy: char): (r: nat)
    requires i <= |text|
    ensures i <= r <= |text|
    ensures r < |text| ==> text[r] == satisfy
  {
    Gobble(text, i, satisfy, 0, if satisfy == '}' then 0 else 1, '\0')
  }

  // The first open brace at or after i that begins a brace expression, or the length.
  function FindOpen(text: string, i: nat): (r: nat)
    requires i <= |text|
    ensures i <= r <= |text|
    ensures r < |text| ==> Find(text, r + 1, '}') < |text|
    decreases |text| - i
  {
    var o := Find(text, i, '{');
    if o == |text| then o
    else if Find(text, o + 1, '}') < |text| then o
    else FindOpen(text, o + 1)
  }

  // Does the amble hold a separator that no backslash protects?
  predicate HasComma(text: string, i: nat)
    decreases |text| - i
  {
    if i >= |text| then false
    else if text[i] == '\\' then HasComma(text, i + 2)
    else text[i] == ',' || HasComma(text, i + 1)
  }

  // Every string of xs followed by every string of ys, the first varying slowest.
  function Product(xs: seq<string>, ys: seq<string>): (r: seq<string>)
    ensures |r| == |xs| * |ys|
  {
    if xs == [] then [] else Prefixed(xs[0], ys) + Product(xs[1..], ys)
  }

  function Prefixed(x: string, ys: seq<string>): (r: seq<string>)
    ensures |r| == |ys|
    ensures forall j :: 0 <= j < |ys| ==> r[j] == x + ys[j]
  {
    seq(|ys|, j requires 0 <= j < |ys| => x + ys[j])
  }

  // Expands a sequence term such as 1..10; braces.c parses it, this model does not.
  type SeqTerm = string -> Option<seq<string>>

  function BraceExpand(text: string, st: SeqTerm): seq<string>
    decreases |text|, 0
  {
    var open := FindOpen(text, 0);
    if open == |text| then [text]
    else
      var close := Find(text, open + 1, '}');
      var amble, post := text[open + 1..close], text[close + 1..];
      var tack :=
        if HasComma(amble, 0) then Some(ExpandAmble(amble, 0, st))
        else if st(amble).Some? then st(amble)
        else if post != "" then Some([text[open..close + 1]])
        else None;
      if tack == None then [text]
      else
        var head := Product([text[..open]], tack.value);
        if post == "" then head else Product(head, BraceExpand(post, st))
  }

  // expand_amble from start on: the expansions of the pieces between separators.
  function ExpandAmble(text: string, start: nat, st: SeqTerm): seq<string>
    requires start <= |text|
    decreases |text|, 1 + |text| - start
  {
    var i := Find(text, start, ',');
    var piece := BraceExpand(text[start..i], st);
    if i < |text| then piece + ExpandAmble(text, i + 1, st) else piece
  }
}
