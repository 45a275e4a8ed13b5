/** Compound assignment a=( ... ) and a+=( ... ) to an indexed array, arrayfunc.c. */
module CompoundAssign {
  import opened Options
  import opened ArrayModel
  import opened ArrayStore

  // A word of the list after expansion; assignment is its W_ASSIGNMENT flag.
  datatype Word = Word(text: string, assignment: bool)

  // What the rest of the shell knows: where the subscript that a text begins with ends, and
  // what a subscript evaluates to when so many words have been dealt with.
  datatype Env = Env(skip: string -> nat, index: (nat, string) -> int)

  datatype Form =
    | Plain(text: string)
    | Malformed(text: string)          // begins like a subscript, but is none
    | Refused                          // []=..., [*]=..., [@]=...
    | Indexed(sub: string, plus: bool, value: string)

  function CharAt(w: string, i: nat): (c: char)
    ensures c != '\0' ==> i < |w| && c == w[i]
  {
    if i < |w| then w[i] else '\0'
  }

  function Drop(w: string, i: nat): string {
    if i <= |w| then w[i..] else ""
  }

  function FormOf(env: Env, w: Word): Form {
    if !w.assignment || CharAt(w.text, 0) != '[' then Plain(w.text)
    else
      var len := env.skip(w.text);
      if CharAt(w.text, len) != ']' || (CharAt(w.text, len + 1) != '=' &&
         (CharAt(w.text, len + 1) != '+' || CharAt(w.text, len + 2) != '=')) then Malformed(w.text)
      else if len == 1 || (len == 2 && CharAt(w.text, 1) in "@*") then Refused
      else if CharAt(w.text, len + 1) == '+' then Indexed(w.text[1..len], true, Drop(w.text, len + 3))
      else Indexed(w.text[1..len], false, Drop(w.text, len + 2))
  }

  // ---- the meaning, on maps ----

  ghost function MaxKey(m: map<int, Value>): (k: int)
    ensures if m == map[] then k == -1 else k in m && forall j :: j in m ==> j <= k
    decreases |m|
  {
    if m == map[] then -1
    else
      var x :| x in AnyKey(m);
      var rest := m - {x};
      assert m.Keys == rest.Keys + {x};
      var k := MaxKey(rest);
      if rest == map[] || x > k then x else k
  }

  ghost function AnyKey(m: map<int, Value>): (r: set<int>)
    requires m != map[]
    ensures r == m.Keys && exists x :: x in r
  {
    assert (forall x :: x !in m) ==> m == map[];
    m.Keys
  }

  function Text(v: Value): string { if v.Some? then v.value else "" }

  function Held(m: map<int, Value>, i: int): string {
    if i in m then Text(m[i]) else ""
  }

  // v as it is stored at i, or added to what is there.
  function Put(m: map<int, Value>, i: int, v: string, append: bool): map<int, Value> {
    m[i := Some(if append then Held(m, i) + v else v)]
  }

  datatype State = State(m: map<int, Value>, next: int, done: nat)

  // A negative subscript counts back from the end.
  ghost function Place(m: map<int, Value>, k: int): int {
    if k < 0 then MaxKey(m) + 1 + k else k
  }

  ghost function Assign(env: Env, st: State, f: Form, append: bool): State {
    match f
    case Plain(text) => State(Put(st.m, st.next, text, append), st.next + 1, st.done + 1)
    case Malformed(text) =>
      State(st.m[st.next := Some(if append then Held(st.m, 0) + text else text)], st.next + 1, st.done + 1)
    case Refused => st.(done := st.done + 1)
    case Indexed(sub, plus, value) =>
      var k := Place(st.m, env.index(st.done, sub));
      if k < 0 then st.(done := st.done + 1) else State(Put(st.m, k, value, append || plus), k + 1, st.done + 1)
  }

  ghost function Fold(env: Env, st: State, words: seq<Word>, append: bool): State {
    if words == [] then st
    else Assign(env, Fold(env, st, words[..|words| - 1], append), FormOf(env, words[|words| - 1]), append)
  }

  // Where a compound assignment starts.
  ghost function Start(m: map<int, Value>, append: bool): State {
    if append then State(m, MaxKey(m) + 1, 0) else State(map[], 0, 0)
  }

  // ---- what it comes to ----

  lemma PlainText(env: Env, w: Word)
    requires FormOf(env, w).Plain?
    ensures FormOf(env, w) == Plain(w.text)
  {
  }

  // Plain words take the places from the running index on, wherever it stands, and leave
  // all others alone.
  lemma {:induction false} PlainRun(env: Env, st: State, words: seq<Word>, append: bool)
    requires forall j :: 0 <= j < |words| ==> FormOf(env, words[j]).Plain?
    ensures var r := Fold(env, st, words, append);
            && r.next == st.next + |words|
            && (forall i :: i < st.next || i >= r.next ==>
                  (i in r.m <==> i in st.m) && (i in st.m ==> r.m[i] == st.m[i]))
            && (forall j :: 0 <= j < |words| ==> Taken(st, r, j, words[j].text, append))
  {
    hide FormOf, Put;
    if words != [] {
      var n := |words| - 1;
      var mid := Fold(env, st, words[..n], append);
      PlainRun(env, st, words[..n], append);
      PlainText(env, words[n]);
      assert Fold(env, st, words, append) == Assign(env, mid, FormOf(env, words[n]), append);
      PutAt(mid.m, mid.next, words[n].text, append);
      forall j | 0 <= j < |words|
        ensures Taken(st, Fold(env, st, words, append), j, words[j].text, append)
      {
        if j < n {
          assert Taken(st, mid, j, words[..n][j].text, append);
        } else {
          assert Held(mid.m, mid.next) == Held(st.m, mid.next);
        }
      }
    }
  }

  // The j-th place from st's running index on holds the text, behind what was there for +=.
  ghost predicate Taken(st: State, r: State, j: int, text: string, append: bool) {
    st.next + j in r.m && r.m[st.next + j] == Some((if append then Held(st.m, st.next + j) else "") + text)
  }

  lemma PutAt(m: map<int, Value>, i: int, v: string, append: bool)
    ensures var r := Put(m, i, v, append);
            && i in r && r[i] == Some((if append then Held(m, i) else "") + v)
            && forall j :: j != i ==> (j in r <==> j in m) && (j in m ==> r[j] == m[j]) && Held(r, j) == Held(m, j)
  {
    assert "" + v == v;
  }

  lemma StartsBehind(m: map<int, Value>, append: bool)
    ensures var st := Start(m, append); forall i :: i in st.m ==> i < st.next
  {
  }

  // Plain words go behind what is there, one after the other.
  lemma PlainWords(env: Env, m: map<int, Value>, words: seq<Word>, append: bool)
    requires forall j :: 0 <= j < |words| ==> FormOf(env, words[j]).Plain?
    ensures var st0, st := Start(m, append), Fold(env, Start(m, append), words, append);
            && st.next == st0.next + |words|
            && (forall i :: i in st.m <==> i in st0.m || st0.next <= i < st0.next + |words|)
            && (forall i :: i in st0.m ==> st.m[i] == st0.m[i])
            && (forall j :: 0 <= j < |words| ==> st.m[st0.next + j] == Some(words[j].text))
  {
    hide FormOf, Fold, Start, Taken;
    var st0, st := Start(m, append), Fold(env, Start(m, append), words, append);
    StartsBehind(m, append);
    PlainRun(env, st0, words, append);
    forall j | 0 <= j < |words|
      ensures st0.next + j in st.m && st.m[st0.next + j] == Some(words[j].text)
    {
      TakenFresh(st0, st, j, words[j].text, append);
    }
    forall i | st0.next <= i < st.next
      ensures i in st.m
    {
      TakenFresh(st0, st, i - st0.next, words[i - st0.next].text, append);
    }
  }

  lemma TakenFresh(st0: State, st: State, j: nat, text: string, append: bool)
    requires Taken(st0, st, j, text, append) && forall i :: i in st0.m ==> i < st0.next
    ensures st0.next + j in st.m && st.m[st0.next + j] == Some(text)
  {
    assert "" + text == text;
  }

  // Words behind other words.
  lemma {:induction false} FoldBoth(env: Env, st: State, a: seq<Word>, b: seq<Word>, append: bool)
    ensures Fold(env, st, a + b, append) == Fold(env, Fold(env, st, a, append), b, append)
  {
    hide Assign, FormOf;
    if b == [] {
      assert a + b == a;
    } else {
      var n := |b| - 1;
      assert (a + b)[..|a| + n] == a + b[..n];
      FoldBoth(env, st, a, b[..n], append);
    }
  }

  lemma FoldOne(env: Env, st: State, w: Word, append: bool)
    ensures Fold(env, st, [w], append) == Assign(env, st, FormOf(env, w), append)
  {
    hide Assign, FormOf;
    assert [w][..0] == [];
    assert Fold(env, st, [], append) == st;
  }

  // Where an indexed word goes in the state before it; below 0 it is refused.
  ghost function PlaceOf(env: Env, st: State, w: Word): int
    requires FormOf(env, w).Indexed?
  {
    Place(st.m, env.index(st.done, FormOf(env, w).sub))
  }

  // [k]=v resets the running index: the plain words behind it take the places from k + 1 on,
  // for = and for += alike.
  lemma IndexedThenPlain(env: Env, st: State, w: Word, words: seq<Word>, append: bool)
    requires FormOf(env, w).Indexed? && PlaceOf(env, st, w) >= 0
    requires forall j :: 0 <= j < |words| ==> FormOf(env, words[j]).Plain?
    ensures var (k, f, r) := (PlaceOf(env, st, w), FormOf(env, w), Fold(env, st, [w] + words, append));
            && r.next == k + 1 + |words|
            && k in r.m && r.m[k] == Some((if append || f.plus then Held(st.m, k) else "") + f.value)
            && (forall j :: 0 <= j < |words| ==> Taken(st.(next := k + 1), r, j, words[j].text, append))
            && (forall i :: i < k || i >= r.next ==> (i in r.m <==> i in st.m) && (i in st.m ==> r.m[i] == st.m[i]))
  {
    hide FormOf, Place, Put, Held;
    var k, f := PlaceOf(env, st, w), FormOf(env, w);
    FoldBoth(env, st, [w], words, append);
    FoldOne(env, st, w, append);
    var mid := Fold(env, st, [w], append);
    PutAt(st.m, k, f.value, append || f.plus);
    PlainRun(env, mid, words, append);
    var r := Fold(env, mid, words, append);
    forall j | 0 <= j < |words|
      ensures Taken(st.(next := k + 1), r, j, words[j].text, append)
    {
      assert Taken(mid, r, j, words[j].text, append);
    }
  }

  // A negative subscript behind any words: it counts back from one behind the last element
  // that those words leave.  If that is before the first place, nothing changes, not even the
  // running index; else the word goes there, -1 being the last element itself.
  lemma NegativeSubscript(env: Env, st: State, words: seq<Word>, w: Word, append: bool)
    requires FormOf(env, w).Indexed?
    requires env.index(Fold(env, st, words, append).done, FormOf(env, w).sub) < 0
    ensures var (mid, r) := (Fold(env, st, words, append), Fold(env, st, words + [w], append));
            var k := env.index(mid.done, FormOf(env, w).sub);
            if forall i :: i in mid.m ==> i + 1 + k < 0 then r == mid.(done := mid.done + 1)
            else
              && (exists last :: last in mid.m && (forall i :: i in mid.m ==> i <= last) && r.next == last + 1 + k + 1)
              && (var (i, f) := (r.next - 1, FormOf(env, w));
                  i in r.m && r.m[i] == Some((if append || f.plus then Held(mid.m, i) else "") + f.value))
              && (forall i :: i in mid.m ==> i in r.m && (i != r.next - 1 ==> r.m[i] == mid.m[i]))
  {
    hide FormOf, Held, MaxKey, Put;
    var mid, f := Fold(env, st, words, append), FormOf(env, w);
    FoldBoth(env, st, words, [w], append);
    FoldOne(env, mid, w, append);
    PutAt(mid.m, PlaceOf(env, mid, w), f.value, append || f.plus);
  }

  // The element that a word meets, if it goes anywhere, and what it brings.
  ghost function Meets(env: Env, st: State, w: Word): Option<int> {
    match FormOf(env, w)
    case Plain(_) => Some(st.next)
    case Malformed(_) => Some(st.next)
    case Refused => None
    case Indexed(_, _, _) => if PlaceOf(env, st, w) < 0 then None else Some(PlaceOf(env, st, w))
  }

  function Brings(env: Env, w: Word): string {
    match FormOf(env, w)
    case Plain(text) => text
    case Malformed(text) => text
    case Refused => ""
    case Indexed(_, _, value) => value
  }

  // All that the words of a += bring to element i.
  ghost function Brought(env: Env, st: State, words: seq<Word>, i: int): string {
    if words == [] then ""
    else
      var n := |words| - 1;
      Brought(env, st, words[..n], i) +
      (if Meets(env, Fold(env, st, words[..n], true), words[n]) == Some(i) then Brings(env, words[n]) else "")
  }

  // After the first n words every element holds what it held and what they brought to it.
  ghost predicate AddsUp(env: Env, st: State, words: seq<Word>, n: nat)
    requires n <= |words|
  {
    forall i :: Held(Fold(env, st, words[..n], true).m, i) == Held(st.m, i) + Brought(env, st, words[..n], i)
  }

  // A malformed word is added to element 0, so its own element has to hold the same.
  ghost predicate Harmless(env: Env, st: State, words: seq<Word>, n: nat)
    requires n < |words|
  {
    var mid := Fold(env, st, words[..n], true);
    FormOf(env, words[n]).Malformed? ==> Held(mid.m, 0) == Held(mid.m, mid.next)
  }

  lemma SameEnd(a: string, b: string, t: string)
    ensures a + t == b + t <==> a == b
  {
    if a + t == b + t {
      assert |a + t| == |a| + |t| && |b + t| == |b| + |t|;
      assert a == (a + t)[..|a|] && b == (b + t)[..|b|];
    }
  }

  // One word under +=: each element gets what the word brings it, exactly if it is harmless.
  lemma AppendedWord(env: Env, st: State, w: Word)
    ensures var r := Assign(env, st, FormOf(env, w), true);
            (forall i :: Held(r.m, i) == Held(st.m, i) + (if Meets(env, st, w) == Some(i) then Brings(env, w) else ""))
            <==> (FormOf(env, w).Malformed? ==> Held(st.m, 0) == Held(st.m, st.next))
  {
    hide FormOf, Place, Put;
    var f, r := FormOf(env, w), Assign(env, st, FormOf(env, w), true);
    assert forall i :: Held(st.m, i) + "" == Held(st.m, i);
    if Meets(env, st, w).Some? {
      PutAt(st.m, Meets(env, st, w).value, Brings(env, w), true);
      SameEnd(Held(st.m, 0), Held(st.m, st.next), Brings(env, w));
    }
    if f.Malformed? {
      assert Held(r.m, st.next) == Held(st.m, 0) + f.text;
    }
  }

  // a+=( ... ) adds the words to the elements they meet, all along the list, exactly if each
  // malformed word finds the same text in element 0 as where it goes.
  lemma {:induction false} AppendToElements(env: Env, st: State, words: seq<Word>)
    ensures (forall n :: 0 <= n <= |words| ==> AddsUp(env, st, words, n)) <==>
            (forall n :: 0 <= n < |words| ==> Harmless(env, st, words, n))
  {
    hide AddsUp, Harmless;
    if words == [] {
      NothingAdded(env, st, words);
    } else {
      var n := |words| - 1;
      AppendToElements(env, st, words[..n]);
      forall k | 0 <= k <= n
        ensures AddsUp(env, st, words, k) <==> AddsUp(env, st, words[..n], k)
        ensures k < n ==> (Harmless(env, st, words, k) <==> Harmless(env, st, words[..n], k))
      {
        Shorter(env, st, words, n, k);
      }
      if AddsUp(env, st, words, n) {
        AppendedLast(env, st, words);
      }
    }
  }

  lemma NothingAdded(env: Env, st: State, words: seq<Word>)
    ensures AddsUp(env, st, words, 0)
  {
    assert words[..0] == [];
  }

  lemma Shorter(env: Env, st: State, words: seq<Word>, n: nat, k: nat)
    requires k <= n <= |words|
    ensures AddsUp(env, st, words, k) <==> AddsUp(env, st, words[..n], k)
    ensures k < n ==> (Harmless(env, st, words, k) <==> Harmless(env, st, words[..n], k))
  {
    hide Fold, Brought, FormOf;
    assert words[..n][..k] == words[..k];
  }

  lemma AppendedLast(env: Env, st: State, words: seq<Word>)
    requires words != [] && AddsUp(env, st, words, |words| - 1)
    ensures AddsUp(env, st, words, |words|) <==> Harmless(env, st, words, |words| - 1)
  {
    hide FormOf, Assign, Held, Meets;
    var n := |words| - 1;
    var mid := Fold(env, st, words[..n], true);
    assert words[..n + 1] == words;
    AppendedWord(env, mid, words[n]);
    forall i
      ensures Held(mid.m, i) + (if Meets(env, mid, words[n]) == Some(i) then Brings(env, words[n]) else "")
              == Held(st.m, i) + Brought(env, st, words, i)
    {
      assert Held(mid.m, i) == Held(st.m, i) + Brought(env, st, words[..n], i);
    }
  }

  // At a single word.
  lemma MalformedTakesFirst(env: Env, st: State, w: Word)
    requires FormOf(env, w).Malformed?
    ensures var r := Fold(env, st, [w], true);
            && st.next in r.m && r.m[st.next] == Some(Held(st.m, 0) + FormOf(env, w).text)
            && (r.m[st.next] == Some(Held(st.m, st.next) + FormOf(env, w).text) <==>
               Held(st.m, 0) == Held(st.m, st.next))
  {
    FoldOne(env, st, w, true);
    hide FormOf;
    SameEnd(Held(st.m, 0), Held(st.m, st.next), FormOf(env, w).text);
  }

  // b=(x y) and then b+=([z): element 2, which did not exist, becomes "x[z".
  lemma MalformedExample()
    ensures var env := Env(w => |w|, (n, sub) => 0);
            var r := Fold(env, Start(map[0 := Some("x"), 1 := Some("y")], true), [Word("[z", true)], true);
            r.next == 3 && 2 in r.m && r.m[2] == Some("x[z")
  {
    var env := Env(w => |w|, (n, sub) => 0);
    var m := map[0 := Some("x"), 1 := Some("y")];
    FoldOne(env, Start(m, true), Word("[z", true), true);
    hide MaxKey;
    assert 0 in m && 1 in m && forall j :: j in m ==> j <= 1;
    assert MaxKey(m) == 1;
    assert FormOf(env, Word("[z", true)) == Malformed("[z");
    assert Held(m, 0) + "[z" == "x[z";
  }

  // ---- in terms of the text of a word ----

  // sub in brackets, = or +=, and value.
  function Spelled(sub: string, plus: bool, value: string): string {
    "[" + sub + (if plus then "]+=" else "]=") + value
  }

  lemma SpelledForm(env: Env, sub: string, plus: bool, value: string)
    requires env.skip(Spelled(sub, plus, value)) == |sub| + 1
    ensures var f := FormOf(env, Word(Spelled(sub, plus, value), true));
            f == if sub == "" || sub == "@" || sub == "*" then Refused else Indexed(sub, plus, value)
  {
    var t, n := Spelled(sub, plus, value), |sub|;
    assert t[0] == '[' && t[n + 1] == ']' && t[1..n + 1] == sub;
    assert t[n + 2] == (if plus then '+' else '=') && (plus ==> t[n + 3] == '=');
    assert t[if plus then n + 4 else n + 3..] == value;
    assert n == 1 ==> t[1] == sub[0] && sub == [sub[0]];
  }

  // [sub]=value and [sub]+=value: the element at the place that sub comes to, negative ones
  // counted back from behind the last element, is exactly value, or gets value behind what it
  // holds; nothing else changes, and nothing at all if the place is before the first.
  lemma SubscriptWord(env: Env, st: State, sub: string, plus: bool, value: string, append: bool)
    requires env.skip("[" + sub + (if plus then "]+=" else "]=") + value) == |sub| + 1
    requires sub != "" && sub != "@" && sub != "*"
    ensures var w := Word("[" + sub + (if plus then "]+=" else "]=") + value, true);
            var r, k := Fold(env, st, [w], append), env.index(st.done, sub);
            var p := if k >= 0 then k else MaxKey(st.m) + 1 + k;
            var before := if p in st.m && st.m[p].Some? && (plus || append) then st.m[p].value else "";
            && (p < 0 ==> r.m == st.m && r.next == st.next)
            && (p >= 0 ==> r.m == st.m[p := Some(before + value)] && r.next == p + 1)
  {
    var w := Word(Spelled(sub, plus, value), true);
    SpelledForm(env, sub, plus, value);
    FoldOne(env, st, w, append);
    hide FormOf, Fold, MaxKey;
    assert "" + value == value;
  }

  // []=..., [@]=... and [*]=... change nothing.
  lemma RefusedWord(env: Env, st: State, sub: string, plus: bool, value: string, append: bool)
    requires env.skip("[" + sub + (if plus then "]+=" else "]=") + value) == |sub| + 1
    requires sub == "" || sub == "@" || sub == "*"
    ensures var w := Word("[" + sub + (if plus then "]+=" else "]=") + value, true);
            var r := Fold(env, st, [w], append); r.m == st.m && r.next == st.next
  {
    var w := Word(Spelled(sub, plus, value), true);
    SpelledForm(env, sub, plus, value);
    FoldOne(env, st, w, append);
  }

  // A word that is not flagged, or does not begin with a bracket, goes to the running index.
  lemma BareWord(env: Env, st: State, w: Word, append: bool)
    requires !w.assignment || w.text == "" || w.text[0] != '['
    ensures var r := Fold(env, st, [w], append);
            var before := if append && st.next in st.m && st.m[st.next].Some? then st.m[st.next].value else "";
            r.m == st.m[st.next := Some(before + w.text)] && r.next == st.next + 1
  {
    FoldOne(env, st, w, append);
    hide Fold;
    assert "" + w.text == w.text;
  }

  // One that begins with a bracket, but not with brackets around what is skipped and = or +=
  // behind them, goes there too; += adds it to element 0.
  lemma BrokenWord(env: Env, st: State, w: Word, append: bool)
    requires w.assignment && w.text != "" && w.text[0] == '['
    requires forall sub, plus, value :: |sub| + 1 == env.skip(w.text) ==> w.text != Spelled(sub, plus, value)
    ensures var r := Fold(env, st, [w], append);
            var before := if append && 0 in st.m && st.m[0].Some? then st.m[0].value else "";
            r.m == st.m[st.next := Some(before + w.text)] && r.next == st.next + 1
  {
    BrokenForm(env, w);
    FoldOne(env, st, w, append);
    hide Fold, FormOf;
    assert "" + w.text == w.text;
  }

  lemma BrokenForm(env: Env, w: Word)
    requires w.assignment && w.text != "" && w.text[0] == '['
    requires forall sub, plus, value :: |sub| + 1 == env.skip(w.text) ==> w.text != Spelled(sub, plus, value)
    ensures FormOf(env, w) == Malformed(w.text)
  {
    var t, n := w.text, env.skip(w.text);
    if CharAt(t, n) == ']' && CharAt(t, n + 1) == '=' {
      Reassembled(t, n, false);
    } else if CharAt(t, n) == ']' && CharAt(t, n + 1) == '+' && CharAt(t, n + 2) == '=' {
      Reassembled(t, n, true);
    }
  }

  lemma Reassembled(t: string, n: nat, plus: bool)
    requires t != "" && t[0] == '[' && CharAt(t, n) == ']'
    requires if plus then CharAt(t, n + 1) == '+' && CharAt(t, n + 2) == '=' else CharAt(t, n + 1) == '='
    ensures var behind := if plus then n + 3 else n + 2;
            0 < n && behind <= |t| && t == Spelled(t[1..n], plus, t[behind..])
  {
    var (sub, behind) := (t[1..n], if plus then n + 3 else n + 2);
    assert t[..n] == "[" + sub;
    assert t[n..behind] == if plus then "]+=" else "]=";
    assert t == t[..n] + t[n..behind] + t[behind..];
  }

  // ---- the code ----

  lemma AssignDone(env: Env, st: State, f: Form, append: bool)
    ensures Assign(env, st, f, append).done == st.done + 1
  {
  }

  lemma MaxIs(s: seq<Entry>)
    requires Sorted(s)
    ensures MaxKey(Contents(s)) == Max(s)
  {
    hide MaxKey, Contents, Rank;
    if s == [] {
      assert Contents(s) == map[] by {
        forall i ensures i !in Contents(s) {
          In(s, i);
        }
      }
    } else {
      At(s, |s| - 1);
      var _ := Found(s, MaxKey(Contents(s)));
    }
  }

  // bind_array_var_internal and make_array_variable_value.
  method Bind(store: Store, a: SparseArray, ind: int, value: string, append: bool)
    requires store.Valid() && a in store.arrays && Natural(a.entries) && ind >= 0
    modifies store`lastarray, store`lastref, a, a.ring
    ensures store.Valid() && store.Others(a) && store.Within(a) && Natural(a.entries)
    ensures Sorted(old(a.entries)) && Sorted(a.entries)
    ensures Contents(a.entries) == Put(Contents(old(a.entries)), ind, value, append)
  {
    hide Contents, Rank, Insert, Reference, Has;
    InsertIsUpdate(a.entries, ind, Some(value));
    InsertIsUpdate(a.entries, ind, Some(Held(Contents(a.entries), ind) + value));
    ReferenceIsLookup(a.entries, ind);
    var v := value;
    if append {
      var oldValue := store.Reference(a, ind);
      v := (if oldValue.Some? then oldValue.value else "") + value;
    }
    var _ := store.Insert(a, ind, Some(v));
  }

  // A word that is no assignment to a subscript after all.
  method BindMalformed(store: Store, a: SparseArray, ind: int, text: string, append: bool)
    requires store.Valid() && a in store.arrays && Natural(a.entries) && ind >= 0
    modifies store`lastarray, store`lastref, a, a.ring
    ensures store.Valid() && store.Others(a) && store.Within(a) && Natural(a.entries)
    ensures Sorted(old(a.entries)) && Sorted(a.entries)
    ensures var m := Contents(old(a.entries));
            Contents(a.entries) == m[ind := Some(if append then Held(m, 0) + text else text)]
  {
    hide Contents, Rank, Insert, Reference, Has;
    InsertIsUpdate(a.entries, ind, Some(text));
    InsertIsUpdate(a.entries, ind, Some(Held(Contents(a.entries), 0) + text));
    ReferenceIsLookup(a.entries, 0);
    var v := text;
    if append {
      var oldValue := store.Reference(a, 0);
      v := (if oldValue.Some? then oldValue.value else "") + text;
    }
    var _ := store.Insert(a, ind, Some(v));
  }

  // The state that the code is in.
  ghost predicate Stands(store: Store, a: SparseArray, st: State, last: int)
    reads store, store.arrays, a
  {
    a in store.arrays && Sorted(a.entries) && Natural(a.entries) && Contents(a.entries) == st.m && last == st.next >= 0
  }

  // One word, the loop body of assign_compound_array_list.
  method AssignWord(store: Store, a: SparseArray, env: Env, w: Word, append: bool, last: int, done: nat,
      ghost st: State)
    returns (last': int)
    requires store.Valid() && Stands(store, a, st, last) && st.done == done
    modifies store`lastarray, store`lastref, a, a.ring
    ensures store.Valid() && store.Others(a) && store.Within(a)
    ensures Stands(store, a, Assign(env, st, FormOf(env, w), append), last')
  {
    hide Store.Valid, Contents, Sorted, Natural, MaxKey, CharAt, Drop, Put, Held;
    last' := last;
    var append' := append;
    var ind, value := last, w.text;
    if w.assignment && CharAt(w.text, 0) == '[' {
      var len := env.skip(w.text);
      if CharAt(w.text, len) != ']' || (CharAt(w.text, len + 1) != '=' &&
         (CharAt(w.text, len + 1) != '+' || CharAt(w.text, len + 2) != '=')) {
        BindMalformed(store, a, last, w.text, append);
        last' := last + 1;
        return;
      }
      if len == 1 || (len == 2 && CharAt(w.text, 1) in "@*") {
        return;
      }
      ind := env.index(done, w.text[1..len]);
      if ind < 0 {
        store.Mine(a);
        MaxIs(a.entries);
        ind := a.maxIndex + 1 + ind;
      }
      if ind < 0 {
        return;
      }
      if CharAt(w.text, len + 1) == '+' {
        append', value := true, Drop(w.text, len + 3);
      } else {
        value := Drop(w.text, len + 2);
      }
    }
    Bind(store, a, ind, value, append');
    last' := ind + 1;
  }

  // assign_compound_array_list, for an indexed array.
  method AssignWords(store: Store, a: SparseArray, env: Env, words: seq<Word>, append: bool)
    requires store.Valid() && a in store.arrays && Natural(a.entries)
    modifies store`lastarray, store`lastref, a, a.ring
    ensures store.Valid() && store.Others(a) && Natural(a.entries) && Sorted(old(a.entries)) && Sorted(a.entries)
    ensures Contents(a.entries) == Fold(env, Start(Contents(old(a.entries)), append), words, append).m
  {
    hide Store.Valid, Contents, Sorted, Natural, MaxKey, Assign;
    store.Mine(a);
    MaxIs(a.entries);
    MaxNatural(a.entries);
    Emptied();
    ghost var st := Start(Contents(a.entries), append);
    var last := 0;
    if append {
      last := a.maxIndex + 1;
    } else {
      store.Flush(a);
    }
    for i := 0 to |words|
      invariant store.Valid() && store.Others(a) && store.Within(a)
      invariant Stands(store, a, Fold(env, st, words[..i], append), last) && Fold(env, st, words[..i], append).done == i
    {
      assert words[..i + 1][..i] == words[..i];
      last := AssignWord(store, a, env, words[i], append, last, i, Fold(env, st, words[..i], append));
      AssignDone(env, Fold(env, st, words[..i], append), FormOf(env, words[i]), append);
    }
    assert words[..|words|] == words;
  }
}
