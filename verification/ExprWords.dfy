/** The words of an arithmetic text, character by character, and variables that stand for each
    other. */
module ExprWords {
  import opened Int64
  import opened Numerals
  import opened ExprState
  import opened ExprEval
  import opened ExprSteps
  import opened ExprTree
  import opened ExprLex
  import opened ExprParse
  import opened ExprArith
  import opened ExprLaws
  import opened ExprTexts

  // ---- characters ----

  predicate Letter(c: char) { 'a' <= c <= 'z' || 'A' <= c <= 'Z' || c == '_' }

  predicate Digit(c: char) { '0' <= c <= '9' }

  predicate Blank(c: char) { c == ' ' || c == '\t' || c == '\n' }

  // A name: a letter or underscore, and then letters, underscores and digits.
  predicate Identifier(x: string) {
    x != "" && Letter(x[0]) && forall i :: 0 <= i < |x| ==> Letter(x[i]) || Digit(x[i])
  }

  lemma NamesAre(x: string)
    ensures Identifier(x) <==> ValidName(x)
  {
    assert x != "" ==> (Letter(x[0]) <==> NameStart(x[0]));
    assert forall i :: 0 <= i < |x| ==> (Letter(x[i]) || Digit(x[i]) <==> NameChar(x[i]));
  }

  // A name evaluates to its variable, and to 0 if there is none.
  lemma NameText(x: string, env: Env)
    requires Identifier(x)
    ensures Evaluates(x, env, if x in env then env[x] else 0, env)
  {
    NamesAre(x);
    NamePrints(x);
    hide Evaluates;
    LeafLaw(0, x, env);
  }

  lemma NamePrints(x: string)
    requires ValidName(x)
    ensures Print(Var(x)) == x
  {
    assert Toks(Var(x), TOP) == [PName(x)];
    assert Join([PName(x)]) == Text(PName(x)) == x;
  }

  // Blanks before a word are passed over.
  lemma BlankSkipped(m: Machine)
    requires Blank(At(m.text, m.tp))
    ensures ReadTok(m) == ReadTok(m.(tp := m.tp + 1))
  {
    hide LexOp, ReadTok, Strlong, NumEnd, NameEnd, NameToken;
    var m' := m.(tp := m.tp + 1);
    var i := SkipWhite(m.text, m.tp);
    assert SkipWhite(m'.text, m'.tp) == i;
    var c := At(m.text, i);
    if c == '\0' {
      ReadEnd(m, i);
      ReadEnd(m', i);
    } else if NameStart(c) {
      var cp := NameEnd(m.text, i + 1);
      if At(m.text, cp) == '[' {
        ReadSubscript(m, i);
        ReadSubscript(m', i);
      } else {
        ReadName(m, i, cp);
        ReadName(m', i, cp);
        var peek := ReadTok(Saved(m, i, cp).(tp := cp, noeval := 1, cur := Str));
        if peek.Go? {
          SameName(m, m', i, cp, peek.m);
        }
      }
    } else if IsDigit(c) {
      var cp := NumEnd(m.text, i + 1);
      if Strlong(m.text[i..cp]) == BadNumber {
        ReadBadDigits(m, i, cp);
        ReadBadDigits(m', i, cp);
      } else {
        ReadDigits(m, i, cp, Strlong(m.text[i..cp]).value);
        ReadDigits(m', i, cp, Strlong(m.text[i..cp]).value);
      }
    } else {
      var op := LexOp(m.text, i, m.cur == Str, m.asg);
      if op == NoOp {
        ReadNoOperator(m, i);
        ReadNoOperator(m', i);
      } else {
        ReadOperator(m, i, op.tok, op.asg, op.next);
        ReadOperator(m', i, op.tok, op.asg, op.next);
      }
    }
  }

  lemma SameName(m: Machine, m': Machine, i: nat, cp: nat, peek: Machine)
    requires m.tp <= m'.tp <= i < cp <= |m.text| && m' == m.(tp := m'.tp)
    requires m.noeval > 0 ==> peek.store == m.store
    ensures NameToken(m, i, cp, peek) == NameToken(m', i, cp, peek)
  {
    hide VariableValue;
  }

  // No word begins with any other character than these.
  lemma NoWord(m: Machine)
    requires var c := At(m.text, m.tp);
             !Blank(c) && !Letter(c) && !Digit(c) && c != '\0' && c !in "!%&()*+,-/:<=>?^|~"
    ensures ReadTok(m) == Stop(Syntax, m.store)
  {
    var c := At(m.text, m.tp);
    assert SkipWhite(m.text, m.tp) == m.tp;
    assert !ArithOp(c) && !AssignableOp(c);
    ReadNoOperator(m, m.tp);
  }

  // Nothing but blanks is 0.
  lemma EmptyText(w: string, env: Env)
    requires forall i :: 0 <= i < |w| ==> Blank(w[i])
    ensures Evaluates(w, env, 0, env)
  {
    hide Encode;
    AllBlank(w, 0);
  }

  lemma {:induction false} AllBlank(w: string, i: nat)
    requires i <= |w| && forall k :: 0 <= k < |w| ==> Blank(w[k])
    ensures SkipWhite(w, i) == |w|
    decreases |w| - i
  {
    if i < |w| {
      AllBlank(w, i + 1);
    }
  }

  // A word that begins with a digit has a value exactly if it is a good number.
  lemma NumberWord(w: string, env: Env)
    requires w != "" && Digit(w[0]) && Numeric(w)
    ensures if Good(w) then exists v: I64 :: Evaluates(w, env, v, env) else Stops(w, env, BadNum, env)
  {
    StrlongGood(w);
    hide Good, Strlong, Encode;
    if Strlong(w).Value? {
      LiteralText(w, Strlong(w).value, env);
    } else {
      forall m: Machine | m.store == Encode(env) && m.depth == 0
        ensures EvalExp(w, m) == Invalid(BadNum, Encode(env))
      {
        BadWord(w, m.(noeval := 0));
      }
    }
  }

  lemma BadWord(w: string, m: Machine)
    requires w != "" && Digit(w[0]) && Numeric(w) && Strlong(w).BadNumber? && m.depth < MAX_EXPR_RECURSION_LEVEL
    ensures SubExpr(w, m) == Fail(BadNum, m.store)
  {
    hide Strlong, ReadTok;
    assert SkipWhite(w, 0) == 0;
    NumEndAt(w, 1, |w|);
    assert w[0..|w|] == w;
    ReadBadDigits(Inner(w, m), 0, |w|);
  }

  // ---- variables that stand for each other ----

  // The state behind a name that is the whole text.
  function Named(x: string, m: Machine): Machine
    requires m.depth < MAX_EXPR_RECURSION_LEVEL
  {
    Saved(Inner(x, m), 0, |x|)
  }

  lemma NameLexed(x: string)
    requires Identifier(x)
    ensures SkipWhite(x, 0) == 0 && NameStart(At(x, 0)) && NameEnd(x, 1) == |x| && x[0..|x|] == x
  {
    NamesAre(x);
    NameEndAt(x, 1, |x|);
  }

  // A name reads as its value.
  lemma NameRead(x: string, m: Machine)
    requires Identifier(x) && m.depth < MAX_EXPR_RECURSION_LEVEL
    ensures ReadTok(Inner(x, m)) ==
            match VariableValue(x, Named(x, m))
            case Fail(e, st) => Stop(e, st)
            case Ok(v, m') => Go(m'.(val := v, last := End, cur := Str, tp := |x|))
  {
    hide ReadTok, VariableValue, SkipWhite, NameEnd;
    NameLexed(x);
    var inner := Inner(x, m);
    ReadName(inner, 0, |x|);
    var peeking := Saved(inner, 0, |x|).(tp := |x|, noeval := 1, cur := Str);
    EndBehind(x);
    ReadEnd(peeking, |x|);
  }

  lemma EndBehind(x: string)
    ensures SkipWhite(x, |x|) == |x| && At(x, |x|) == '\0'
  {
  }

  // A name and nothing behind it is its value.
  lemma NameAlone(m: Machine)
    requires m.cur == Str && m.tp == |m.text|
    ensures Parse(0, m) == Ok(m.val, AtEnd(m))
  {
    hide ReadTok, VariableValue, SkipWhite;
    EndBehind(m.text);
    ReadEnd(m.(str := "", noeval := 1), |m.text|);
    ReadEnd(m, |m.text|);
    PrimaryIs(m);
  }

  lemma NameOnly(x: string, m: Machine, v: I64)
    requires Identifier(x) && m.depth < MAX_EXPR_RECURSION_LEVEL
    requires VariableValue(x, Named(x, m)) == Ok(v, Named(x, m))
    ensures SubExpr(x, m) == Ok(v, m)
  {
    hide ReadTok, VariableValue, SkipWhite, SubExpr, Parse;
    NameRead(x, m);
    NameLexed(x);
    var m1 := Named(x, m).(val := v, last := End, cur := Str, tp := |x|);
    NameAlone(m1);
    SubExprIs(x, m, 0);
  }

  lemma NameFails(x: string, m: Machine, e: Error, st: Store)
    requires Identifier(x) && m.depth < MAX_EXPR_RECURSION_LEVEL
    requires VariableValue(x, Named(x, m)) == Fail(e, st)
    ensures SubExpr(x, m) == Fail(e, st)
  {
    hide ReadTok, VariableValue, SkipWhite;
    NameRead(x, m);
    NameLexed(x);
  }

  // Each name stands for the next one.
  predicate Chained(store: Store, names: seq<string>) {
    && names != [] && (forall i :: 0 <= i < |names| ==> Identifier(names[i]))
    && (forall i {:trigger names[i]} :: 0 <= i < |names| - 1 ==>
          names[i] in store && store[names[i]] == names[i + 1])
  }

  lemma ChainedRest(store: Store, names: seq<string>)
    requires Chained(store, names) && |names| > 1
    ensures Chained(store, names[1..]) && names[0] in store && store[names[0]] == names[1..][0] != ""
  {
    var rest := names[1..];
    forall i {:trigger rest[i]} | 0 <= i < |rest| - 1 ensures rest[i] in store && store[rest[i]] == rest[i + 1] {
      assert rest[i] == names[i + 1] && rest[i + 1] == names[i + 2];
    }
    assert Identifier(names[1]);
  }

  lemma ValueOf(x: string, m: Machine)
    requires m.tp < |m.text| && x in m.store && m.store[x] != ""
    ensures VariableValue(x, m) == SubExpr(m.store[x], m)
  {
    hide SubExpr;
  }

  // Names that lead to an integer evaluate to it exactly if there are fewer than the levels
  // that are left.
  lemma {:induction false} ChainValue(names: seq<string>, v: I64, m: Machine)
    requires Chained(m.store, names)
    requires names[|names| - 1] in m.store && m.store[names[|names| - 1]] == Itos(v)
    ensures SubExpr(names[0], m) ==
            if m.depth + |names| < MAX_EXPR_RECURSION_LEVEL then Ok(v, m) else Fail(RecursionLimit, m.store)
    decreases |names|
  {
    hide SubExpr, VariableValue, Chained, Itos;
    FirstName(m.store, names);
    var x := names[0];
    if m.depth >= MAX_EXPR_RECURSION_LEVEL {
      TooDeep(x, m);
    } else {
      var next := Named(x, m);
      if |names| == 1 {
        ItosStarts(v);
        ValueOf(x, next);
        if next.depth < MAX_EXPR_RECURSION_LEVEL {
          IntegerText(v, next);
        } else {
          TooDeepInteger(v, next);
        }
      } else {
        ChainedRest(m.store, names);
        ValueOf(x, next);
        ChainValue(names[1..], v, next);
      }
      if m.depth + |names| < MAX_EXPR_RECURSION_LEVEL {
        NameOnly(x, m, v);
      } else {
        NameFails(x, m, RecursionLimit, m.store);
      }
    }
  }

  lemma FirstName(store: Store, names: seq<string>)
    requires Chained(store, names)
    ensures names != [] && Identifier(names[0]) && names[0] != ""
  {
  }

  lemma ItosStarts(v: I64)
    ensures Itos(v) != "" && SkipWhite(Itos(v), 0) == 0 && At(Itos(v), 0) != '\0'
  {
  }

  lemma TooDeep(x: string, m: Machine)
    requires Identifier(x) && m.depth >= MAX_EXPR_RECURSION_LEVEL
    ensures SubExpr(x, m) == Fail(RecursionLimit, m.store)
  {
    NameLexed(x);
  }

  lemma TooDeepInteger(v: I64, m: Machine)
    requires m.depth >= MAX_EXPR_RECURSION_LEVEL
    ensures SubExpr(Itos(v), m) == Fail(RecursionLimit, m.store)
  {
    ItosStarts(v);
  }

  // At the top: fewer than 1024 names.
  lemma ChainEvaluates(names: seq<string>, v: I64, m: Machine)
    requires Chained(m.store, names) && m.depth == 0
    requires names[|names| - 1] in m.store && m.store[names[|names| - 1]] == Itos(v)
    ensures EvalExp(names[0], m) == if |names| < 1024 then Valid(v, m.store) else Invalid(RecursionLimit, m.store)
  {
    hide SubExpr, Chained, Itos;
    ChainValue(names, v, m.(noeval := 0));
  }

  lemma {:induction false} ChainFails(names: seq<string>, m: Machine)
    requires Chained(m.store, names) && m.depth + |names| > MAX_EXPR_RECURSION_LEVEL
    ensures SubExpr(names[0], m) == Fail(RecursionLimit, m.store)
    decreases |names|
  {
    hide SubExpr, VariableValue, Chained;
    FirstName(m.store, names);
    var x := names[0];
    if m.depth >= MAX_EXPR_RECURSION_LEVEL {
      TooDeep(x, m);
    } else {
      ChainedRest(m.store, names);
      ValueOf(x, Named(x, m));
      ChainFails(names[1..], Named(x, m));
      NameFails(x, m, RecursionLimit, m.store);
    }
  }

  // A variable that stands for itself comes to no end, but for the limit.
  lemma SelfReference(x: string, m: Machine)
    requires Identifier(x) && m.depth == 0 && x in m.store && m.store[x] == x
    ensures EvalExp(x, m) == Invalid(RecursionLimit, m.store)
  {
    var names := seq(1025, i => x);
    assert Chained(m.store, names);
    hide SubExpr;
    ChainFails(names, m.(noeval := 0));
  }

  // ---- what is no expression ----

  // A number, an operator character and whatever is behind it, read as far as the operator.
  lemma NumberThen(a: nat, op: char, rest: string, m: Machine) returns (m1: Machine, m2: Machine)
    requires m.depth < MAX_EXPR_RECURSION_LEVEL && (op == '=' || op == '?') && (rest != "" ==> rest[0] != '=')
    ensures var text := Dec(a) + ([op] + rest);
            && SkipWhite(text, 0) == 0 && At(text, 0) != '\0'
            && ReadTok(Inner(text, m)) == Go(m1) && m1.cur == Num
            && Parse(0, m1) == Ok(Wrap(a), m2) && m2.cur == Ch(op) && m2.last == Num && m2.store == m.store
            && m2.text == text && m2.tp == |Dec(a)| + 1
  {
    hide ReadTok, Parse, Strlong, Dec, LexOp, Wrap, SkipWhite, NumEnd;
    var text, n := Dec(a) + ([op] + rest), |Dec(a)|;
    NumberAhead(text, a, op, rest);
    StrlongDecimal(a);
    ReadDigits(Inner(text, m), 0, n, Wrap(a));
    m1 := Inner(text, m).(val := Wrap(a), last := End, cur := Num, tp := n);
    ReadOperator(m1, n, Ch(op), m1.asg, n + 1);
    m2 := m1.(last := Num, cur := Ch(op), tp := n + 1);
    NumberFinishes(m1, m2);
  }

  lemma NumberAhead(text: string, a: nat, op: char, rest: string)
    requires text == Dec(a) + ([op] + rest) && (op == '=' || op == '?') && (rest != "" ==> rest[0] != '=')
    ensures var n := |Dec(a)|;
            && n < |text| && text[n] == op && text[0..n] == Dec(a) && IsDigit(At(text, 0)) && NumEnd(text, 1) == n
            && SkipWhite(text, 0) == 0 && SkipWhite(text, n) == n
            && forall b, asg :: LexOp(text, n, b, asg) == OpToken(Ch(op), asg, n + 1)
  {
    hide Dec;
    var n := |Dec(a)|;
    assert text[0..n] == Dec(a) && text[n] == op && (rest != "" ==> text[n + 1] == rest[0]);
    assert text[0] == Dec(a)[0];
    forall k | 1 <= k < n ensures NumChar(text[k]) { assert text[k] == Dec(a)[k]; }
    NumEndAt(text, 1, n);
  }

  lemma NumberFinishes(m1: Machine, m2: Machine)
    requires m1.cur == Num && ReadTok(m1) == Go(m2)
    ensures Parse(0, m1) == Ok(m1.val, m2)
  {
    hide ReadTok;
    PrimaryIs(m1);
  }

  // What is no name, with = behind it.
  lemma NoTarget(text: string, m: Machine, m1: Machine, w: I64, m4: Machine)
    requires m.depth < MAX_EXPR_RECURSION_LEVEL && SkipWhite(text, 0) == 0 && At(text, 0) != '\0'
    requires ReadTok(Inner(text, m)) == Go(m1) && !Unary(m1.cur)
    requires Parse(0, m1) == Ok(w, m4) && m4.cur == Ch('=') && m4.last == Num
    ensures SubExpr(text, m) == Fail(NotAVariable, m4.store)
  {
    hide ReadTok, Parse, SkipWhite;
    Climb(0, 13, m1);
    ParseNext(14, m1, w, m4);
    AssignNoName(w, m4);
    ParseFails(15, m1);
  }

  // Nothing is assigned to a number.
  lemma NumberAssigned(a: nat, rest: string, m: Machine)
    requires m.depth < MAX_EXPR_RECURSION_LEVEL && (rest != "" ==> rest[0] != '=')
    ensures SubExpr(Dec(a) + ("=" + rest), m) == Fail(NotAVariable, m.store)
  {
    hide ReadTok, Parse, Dec, SkipWhite;
    var m1, m2 := NumberThen(a, '=', rest, m);
    assert "=" + rest == ['='] + rest;
    NoTarget(Dec(a) + ("=" + rest), m, m1, Wrap(a), m2);
  }

  function Twice(c: char): string { [c, c] }

  // ++x= and --x= step the variable, which is not assigned to then.
  lemma SteppedAssigned(x: string, up: bool, rest: string, env: Env, m: Machine)
    requires Identifier(x) && (rest != "" ==> rest[0] != '=')
    requires m.depth == 0 && m.noeval == 0 && m.store == Encode(env)
    ensures var before: int := if x in env then env[x] else 0;
            var v := Stepped(before, up);
            Congruent(v, if up then before + 1 else before - 1) &&
            SubExpr(Twice(if up then '+' else '-') + (x + ("=" + rest)), m) ==
            Fail(NotAVariable, Encode(env[x := v]))
  {
    hide ReadTok, Parse, SkipWhite, Stepped, Congruent, Encode, SubExpr;
    var before: I64 := if x in env then env[x] else 0;
    var text := Twice(if up then '+' else '-') + (x + ("=" + rest));
    SteppedMakes(before, up);
    var m1, m2 := SteppedThen(text, x, up, rest, env, m);
    NoTarget(text, m, m1, Stepped(before, up), m2);
  }

  lemma SteppedThen(text: string, x: string, up: bool, rest: string, env: Env, m: Machine)
    returns (m1: Machine, m4: Machine)
    requires text == Twice(if up then '+' else '-') + (x + ("=" + rest))
    requires Identifier(x) && (rest != "" ==> rest[0] != '=')
    requires m.depth == 0 && m.noeval == 0 && m.store == Encode(env)
    ensures SkipWhite(text, 0) == 0 && At(text, 0) != '\0' && ReadTok(Inner(text, m)) == Go(m1) && !Unary(m1.cur)
    ensures var v := Stepped(if x in env then env[x] else 0, up);
            Parse(0, m1) == Ok(v, m4) && m4.cur == Ch('=') && m4.last == Num && m4.store == Encode(env[x := v])
  {
    hide ReadTok, Parse, SkipWhite, LexOp, NameEnd, Stepped, Encode, VariableValue, Identifier, Bind, Itos, Keeps;
    var cp := 2 + |x|;
    StepAhead(text, x, up, rest);
    m1 := StepRead(text, up, m);
    SteppedName(m1.(last := m1.cur), x, cp, env);
    var m2 := Saved(m1, 2, cp).(val := Get(env, x), last := m1.cur, cur := Str, tp := cp);
    var w := Stepped(m2.val, up);
    BoundTo(m2, x, w);
    var m3 := Bind(m2, x, w).(cur := Num);
    ReadOperator(m3, cp, Ch('='), m3.asg, cp + 1);
    m4 := m3.(last := Num, cur := Ch('='), tp := cp + 1);
    PreIs(m1, m2, up, m4);
    EncodePut(env, x, w);
  }

  lemma BoundTo(m: Machine, x: string, v: I64)
    requires m.noeval == 0
    ensures Bind(m, x, v) == m.(store := m.store[x := Itos(v)])
  {
    hide Itos;
  }

  lemma StepRead(text: string, up: bool, m: Machine) returns (m1: Machine)
    requires m.depth < MAX_EXPR_RECURSION_LEVEL && |text| > 2 && SkipWhite(text, 0) == 0
    requires text[0] == if up then '+' else '-'
    requires forall asg :: LexOp(text, 0, false, asg) == OpToken(if up then PreInc else PreDec, asg, 2)
    ensures m1 == Inner(text, m).(cur := if up then PreInc else PreDec, tp := 2) && ReadTok(Inner(text, m)) == Go(m1)
  {
    hide ReadTok, SkipWhite, LexOp;
    var inner := Inner(text, m);
    m1 := inner.(cur := if up then PreInc else PreDec, tp := 2);
    ReadOperator(inner, 0, m1.cur, inner.asg, 2);
  }

  // The value of a name behind ++ or -- is read although = follows.
  lemma SteppedName(m: Machine, x: string, cp: nat, env: Env)
    requires (m.last == PreInc || m.last == PreDec) && m.store == Encode(env) && m.depth < MAX_EXPR_RECURSION_LEVEL
    requires m.tp < cp < |m.text| && m.text[m.tp..cp] == x && m.text[cp] == '=' && NameStart(At(m.text, m.tp))
    requires SkipWhite(m.text, m.tp) == m.tp && NameEnd(m.text, m.tp + 1) == cp && SkipWhite(m.text, cp) == cp
    requires forall b, asg :: LexOp(m.text, cp, b, asg) == OpToken(Ch('='), asg, cp + 1)
    ensures ReadTok(m) == Go(Saved(m, m.tp, cp).(val := Get(env, x), last := m.cur, cur := Str, tp := cp))
  {
    hide ReadTok, SkipWhite, LexOp, NameEnd, Encode, VariableValue;
    var peeking := Saved(m, m.tp, cp).(tp := cp, noeval := 1, cur := Str);
    ReadOperator(peeking, cp, Ch('='), peeking.asg, cp + 1);
    ReadName(m, m.tp, cp);
    VariableInteger(x, Saved(m, m.tp, cp), env);
  }

  lemma StepAhead(text: string, x: string, up: bool, rest: string)
    requires text == Twice(if up then '+' else '-') + (x + ("=" + rest))
    requires Identifier(x) && (rest != "" ==> rest[0] != '=')
    ensures var cp := 2 + |x|;
            && |text| > cp && text[2..cp] == x && SkipWhite(text, 0) == 0 && SkipWhite(text, 2) == 2
            && SkipWhite(text, cp) == cp && text[0] == (if up then '+' else '-') && text[cp] == '='
            && NameStart(At(text, 2)) && NameEnd(text, 3) == cp
            && (forall asg :: LexOp(text, 0, false, asg) == OpToken(if up then PreInc else PreDec, asg, 2))
            && (forall b, asg :: LexOp(text, cp, b, asg) == OpToken(Ch('='), asg, cp + 1))
  {
    NamesAre(x);
    var cp := 2 + |x|;
    assert text[2..cp] == x && text[cp] == '=' && (rest != "" ==> text[cp + 1] == rest[0]);
    assert text[0] == text[1] == if up then '+' else '-';
    assert text[2] == x[0];
    forall k | 3 <= k < cp ensures NameChar(text[k]) { assert text[k] == x[k - 2]; }
    NameEndAt(text, 3, cp);
  }

  // A conditional needs what it gives if the condition holds.
  lemma NothingThen(a: nat, rest: string, m: Machine)
    requires m.depth < MAX_EXPR_RECURSION_LEVEL
    ensures SubExpr(Dec(a) + ("?" + (":" + rest)), m) == Fail(Syntax, m.store)
  {
    hide ReadTok, Parse, Dec, SkipWhite, LexOp;
    var m1, m2 := NumberThen(a, '?', ":" + rest, m);
    Climb(0, 12, m1);
    ParseNext(13, m1, Wrap(a), m2);
    assert m2.text[m2.tp] == ':';
    ColonHere(m2);
    CondUnfold(Wrap(a), m2);
    ParseFails(14, m1);
    ParseFails(15, m1);
  }

  lemma ColonHere(m: Machine)
    requires m.tp < |m.text| && m.text[m.tp] == ':'
    ensures ReadTok(m) == Go(m.(last := m.cur, cur := Ch(':'), tp := m.tp + 1))
  {
    ReadOperator(m, m.tp, Ch(':'), m.asg, m.tp + 1);
  }
}
