/** What the quotes of a word mean to the shell (parse.y), with the contexts that substitutions
    open, and how a text is read whose single quotes have been rewritten. */
module QuoteContexts {
  import opened QuoteRewrite

  // Where a character stands. A group is what a substitution encloses, up to its closing
  // character: in it quotes start afresh. weak says whether double quotes surround it without
  // a command in between. A word is ${...} between double quotes, unless it has a pattern.
  datatype Context =
    | Top
    | Double(outer: Context)
    | Single(outer: Context)
    | Group(close: char, weak: bool, outer: Context)
    | Word(outer: Context)

  // A character as the shell takes it, in quotes or not, live if it may start an expansion;
  // or the beginning or end of a substitution.
  datatype Token = Token(c: char, quoted: bool, live: bool) | Begin(c: char) | End(c: char)

  // n characters are read, which say something and lead to another context.
  datatype Step = Step(n: nat, says: seq<Token>, ctx: Context)

  function Literal(c: char): Token { Token(c, true, false) }

  // Single quotes open here.
  predicate Free(x: Context) { x.Top? || x.Group? }

  // The characters that a backslash escapes between double quotes.
  predicate Special(c: char) { c == '$' || c == '`' || c == '"' || c == '\\' }

  predicate Escapes(t: string, x: Context) {
    |t| > 1 && t[0] == '\\' && !x.Single? && (Free(x) || Special(t[1]) || (x.Word? && t[1] == '}'))
  }

  // A double quote opens or closes.
  function Quote(x: Context): Context { if x.Double? then x.outer else Double(x) }

  predicate Dollared(t: string) { |t| > 1 && t[0] == '$' && t[1] == '"' }

  // ---- substitutions ----

  predicate Begins(t: string) { |t| > 1 && t[0] == '$' && (t[1] == '(' || t[1] == '{' || t[1] == '[') }

  predicate InDouble(x: Context) { x.Double? || x.Word? || (x.Group? && x.weak) }

  // The operators of ${...}, with and without a pattern, and what else ends the name.
  predicate PatternOperator(c: char) { c == '%' || c == '#' || c == '/' || c == '^' || c == ',' }

  predicate Stop(c: char) {
    || c == '~' || c == ':' || c == '-' || c == '=' || c == '?' || c == '+' || c == '}'
    || c == '\'' || Special(c)
  }

  // What follows ${ goes on with a name and the operator of a pattern.
  predicate Pattern(t: string) { t != [] && !Stop(t[0]) && !PatternOperator(t[0]) && Named(t[1..]) }

  predicate Named(t: string) {
    t != [] && !Stop(t[0]) && (PatternOperator(t[0]) || Named(t[1..]))
  }

  function Enter(t: string, x: Context): Step
    requires Begins(t)
  {
    var inner :=
      if t[1] == '(' then Group(')', false, x)
      else if t[1] == '[' then Group(']', InDouble(x), x)
      else if InDouble(x) && !Pattern(t[2..]) then Word(x)
      else Group('}', InDouble(x), x);
    Step(2, [Begin(t[1])], inner)
  }

  predicate Closes(c: char, x: Context) { (x.Group? && c == x.close) || (x.Word? && c == '}') }

  // Parentheses and brackets pair within their own kind of group.
  predicate Nests(c: char, x: Context) {
    x.Group? && ((c == '(' && x.close == ')') || (c == '[' && x.close == ']'))
  }

  // A character that is no quote and that nothing escapes.
  function Plain(c: char, x: Context): Step {
    if Closes(c, x) then Step(1, [End(c)], x.outer)
    else if c == '`' then Step(1, [Begin(c)], Group(c, false, x))
    else if Nests(c, x) then Step(1, [Token(c, false, false)], Group(x.close, x.weak, x))
    else Step(1, [Token(c, !Free(x), Live(c))], x)
  }

  // ---- what a text means ----

  function Exactly(c: char, x: Context): Step
    requires x.Single?
  {
    if c == '\'' then Step(1, [], x.outer) else Step(1, [Literal(c)], x)
  }

  // What the shell reads at the beginning of t.
  function Shell(t: string, x: Context): (s: Step)
    requires t != []
    ensures 0 < s.n <= |t|
  {
    if x.Single? then Exactly(t[0], x)
    else if t[0] == '"' then Step(1, [], Quote(x))
    else if t[0] == '\'' && Free(x) then Step(1, [], Single(x))
    else if Escapes(t, x) then Step(2, [Literal(t[1])], x)
    else if Begins(t) then Enter(t, x)
    else if Dollared(t) && Free(x) then Step(1, [], x)        // $"..."
    else Plain(t[0], x)
  }

  function Meaning(t: string, x: Context): seq<Token>
    decreases |t|
  {
    if t == [] then [] else
      var s := Shell(t, x);
      s.says + Meaning(t[s.n..], s.ctx)
  }

  // The shell reads t so: $'...' does not open where it quotes, and between backquotes, where
  // a first pass takes backslashes away, there are none.
  predicate Readable(t: string, x: Context)
    decreases |t|
  {
    t != [] ==>
      && !(Free(x) && |t| > 1 && t[0] == '$' && t[1] == '\'')
      && !(t[0] == '\\' && InBackquotes(x))
      && var s := Shell(t, x); Readable(t[s.n..], s.ctx)
  }

  predicate InBackquotes(x: Context) { !x.Top? && ((x.Group? && x.close == '`') || InBackquotes(x.outer)) }

  // ---- what a rewritten text says ----

  // The control character that a letter stands for behind a backslash, or the letter.
  function Control(c: char): char {
    match c
    case 'a' => 7 as char
    case 'b' => 8 as char
    case 't' => 9 as char
    case 'n' => 10 as char
    case 'f' => 12 as char
    case 'r' => 13 as char
    case _ => c
  }

  predicate IsHex(c: char) { '0' <= c <= '9' || 'a' <= c <= 'f' || 'A' <= c <= 'F' }

  function HexValue(c: char): (v: nat)
    requires IsHex(c)
    ensures v < 16
  {
    if c <= '9' then c as int - '0' as int
    else if c <= 'F' then c as int - 'A' as int + 10
    else c as int - 'a' as int + 10
  }

  // \xHH at the beginning of t.
  predicate HexAt(t: string) { |t| > 3 && t[0] == '\\' && t[1] == 'x' && IsHex(t[2]) && IsHex(t[3]) }

  function HexByte(t: string): char
    requires HexAt(t)
  {
    (16 * HexValue(t[2]) + HexValue(t[3])) as char
  }

  // It is read as the shell reads, but for three things: a backslash begins the names of
  // control characters and bytes in hexadecimal, in quotes and outside; it escapes single
  // quotes there too; and at the top single quotes are characters like others. In a group they
  // are quotes still, because its text is for a shell, or for the same rewriting again.
  function Read(t: string, x: Context): (s: Step)
    requires t != []
    ensures 0 < s.n <= |t|
  {
    if x.Single? then Exactly(t[0], x)
    else if t[0] == '"' then Step(1, [], Quote(x))
    else if t[0] == '\'' && x.Group? then Step(1, [], Single(x))
    else if |t| > 1 && t[0] == '\\' && Control(t[1]) != t[1] then Step(2, [Literal(Control(t[1]))], x)
    else if HexAt(t) then Step(4, [Literal(HexByte(t))], x)
    else if Escapes(t, x) || (|t| > 1 && t[0] == '\\' && t[1] == '\'') then Step(2, [Literal(t[1])], x)
    else if Begins(t) then Enter(t, x)
    else Plain(t[0], x)
  }

  function Decode(t: string, x: Context): seq<Token>
    decreases |t|
  {
    if t == [] then [] else
      var s := Read(t, x);
      s.says + Decode(t[s.n..], s.ctx)
  }

  // ---- contexts that come up ----

  // Nothing opens in single quotes, and double quotes close before they open again.
  predicate Sound(x: Context) {
    && (x.Group? ==> x.close == ')' || x.close == ']' || x.close == '}' || x.close == '`')
    && (!x.Top? ==> !x.outer.Single? && (x.Double? ==> !x.outer.Double?) && Sound(x.outer))
  }

  lemma QuoteTwice(x: Context)
    requires Sound(x)
    ensures Sound(Quote(x)) || x.Single?
    ensures Quote(Quote(x)) == x
  {
  }

  lemma EnterSound(t: string, x: Context)
    requires Begins(t) && Sound(x) && !x.Single?
    ensures Sound(Enter(t, x).ctx) && !Enter(t, x).ctx.Single? && !Enter(t, x).ctx.Double?
  {
  }

  lemma ShellSound(t: string, x: Context)
    requires t != [] && Sound(x)
    ensures Sound(Shell(t, x).ctx)
  {
  }
}
