/** Any interleaving of operations on arrays that share the cache behaves as maps do. */
module ArrayRuns {
  import opened Options
  import opened ArrayModel
  import opened ArrayStore

  // An operation on the array with number a.
  datatype Op =
    | InsertAt(a: nat, i: int, v: Value)
    | RemoveAt(a: nat, i: int)
    | LookUp(a: nat, i: int)
    | ShiftOut(a: nat, n: int)
    | ShiftIn(a: nat, n: int, v: Value)
    | FlushAll(a: nat)

  datatype Answer = Status(status: int) | Got(value: Value) | Elements(entries: seq<Entry>) | Count(count: int) | Done

  // What an operation makes of its array, and what it answers.
  function Effect(s: seq<Entry>, op: Op): (seq<Entry>, Answer) {
    match op
    case InsertAt(_, i, v) => (Insert(s, i, v), Status(0))
    case RemoveAt(_, i) => (Remove(s, i), Got(Reference(s, i)))
    case LookUp(_, i) => (s, Got(Reference(s, i)))
    case ShiftOut(_, n) => (Shift(s, n), Elements(if n <= 0 then [] else if n >= |s| then s else Ahead(s, n)))
    case ShiftIn(_, n, v) => (Rshift(s, n, v), Count(|Rshift(s, n, v)|))
    case FlushAll(_) => ([], Done)
  }

  function Positive(n: int): nat { if n > 0 then n else 0 }

  function KeysBelow(m: map<int, Value>, x: int): set<int> {
    set i | i in m && i < x
  }

  // The same on a map: what an operation makes of m.
  ghost predicate MapEffect(m: map<int, Value>, op: Op, m': map<int, Value>, answer: Answer) {
    match op
    case InsertAt(_, i, v) => m' == m[i := v] && answer == Status(0)
    case RemoveAt(_, i) => m' == m - {i} && answer == Got(if i in m then m[i] else None)
    case LookUp(_, i) => m' == m && answer == Got(if i in m then m[i] else None)
    case ShiftOut(_, n) =>
      answer.Elements? && Sorted(answer.entries) && MapShift(m, Positive(n), m', Contents(answer.entries))
    case ShiftIn(_, n, v) => MapRshift(m, Positive(n), if n > 0 then v else None, m') && answer == Count(|m'|)
    case FlushAll(_) => m' == map[] && answer == Done
  }

  // The n smallest keys go out, the others come down by n.
  ghost predicate MapShift(m: map<int, Value>, n: nat, m': map<int, Value>, gone: map<int, Value>) {
    && (forall k :: k in m' <==> k + n in m && |KeysBelow(m, k + n)| >= n)
    && (forall k :: k in m' ==> m'[k] == m[k + n])
    && (forall k :: k in gone <==> k in m && |KeysBelow(m, k)| < n)
    && (forall k :: k in gone ==> gone[k] == m[k])
  }

  // All keys go up by n, and v, if any, is the new value at 0.
  ghost predicate MapRshift(m: map<int, Value>, n: nat, v: Value, m': map<int, Value>) {
    && (forall k :: k in m' <==> (v.Some? && k == 0) || k - n in m)
    && (forall k :: k in m' ==> m'[k] == if v.Some? && k == 0 then v else m[k - n])
  }

  predicate Legal(op: Op, count: nat) {
    op.a < count && (op.InsertAt? ==> op.i >= 0)
  }

  function Step(s: seq<seq<Entry>>, op: Op): seq<seq<Entry>>
    requires Legal(op, |s|)
  {
    s[op.a := Effect(s[op.a], op).0]
  }

  // The arrays after the first n operations, and the answer to the n-th.
  function After(s: seq<seq<Entry>>, ops: seq<Op>, n: nat): (r: seq<seq<Entry>>)
    requires n <= |ops| && forall j :: 0 <= j < |ops| ==> Legal(ops[j], |s|)
    ensures |r| == |s|
  {
    if n == 0 then s else Step(After(s, ops, n - 1), ops[n - 1])
  }

  function AnswerTo(s: seq<seq<Entry>>, ops: seq<Op>, n: nat): Answer
    requires n < |ops| && forall j :: 0 <= j < |ops| ==> Legal(ops[j], |s|)
  {
    Effect(After(s, ops, n)[ops[n].a], ops[n]).1
  }

  predicate InOrder(s: seq<seq<Entry>>) {
    forall j :: 0 <= j < |s| ==> Sorted(s[j]) && Natural(s[j])
  }

  // Each operation of a run does to its array what it would do to a map, and nothing to the
  // other arrays.
  lemma {:induction false} RunsAsMaps(s: seq<seq<Entry>>, ops: seq<Op>, n: nat)
    requires InOrder(s) && n < |ops| && forall j :: 0 <= j < |ops| ==> Legal(ops[j], |s|)
    ensures var r, r', a := After(s, ops, n), After(s, ops, n + 1), ops[n].a;
            && InOrder(r) && InOrder(r')
            && MapEffect(Contents(r[a]), ops[n], Contents(r'[a]), AnswerTo(s, ops, n))
            && forall b :: 0 <= b < |s| && b != a ==> r'[b] == r[b]
  {
    hide Sorted, Natural, Effect, MapEffect, Contents;
    if n > 0 {
      RunsAsMaps(s, ops, n - 1);
    }
    EffectIsMapEffect(After(s, ops, n)[ops[n].a], ops[n]);
  }

  lemma EffectIsMapEffect(s: seq<Entry>, op: Op)
    requires Sorted(s) && Natural(s) && (op.InsertAt? ==> op.i >= 0)
    ensures var (t, answer) := Effect(s, op);
            Sorted(t) && Natural(t) && MapEffect(Contents(s), op, Contents(t), answer)
  {
    hide Sorted, Natural, Contents, Insert, Remove, Reference, Shift, Rshift, Has, Rank, Ahead, MapShift, MapRshift;
    match op
    case InsertAt(_, i, v) => InsertIsUpdate(s, i, v);
    case RemoveAt(_, i) => RemoveIsRemoval(s, i); ReferenceIsLookup(s, i);
    case LookUp(_, i) => ReferenceIsLookup(s, i);
    case ShiftOut(_, n) => ShiftOutOfMap(s, n);
    case ShiftIn(_, n, v) => ShiftIntoMap(s, n, v);
    case FlushAll(_) => Emptied();
  }

  lemma {:induction false} KeysBelowRank(s: seq<Entry>, x: int)
    requires Sorted(s)
    ensures |KeysBelow(Contents(s), x)| == Rank(s, x)
    decreases |s|
  {
    hide Contents, Rank;
    var m := Contents(s);
    if s == [] {
      Emptied();
      assert KeysBelow(m, x) == {};
    } else {
      var n := |s| - 1;
      var t := s[..n];
      WithoutLast(s);
      At(s, n);
      KeysBelowRank(t, x);
      RankWithoutLast(s, x);
      if s[n].ind < x {
        assert KeysBelow(m, x) == KeysBelow(Contents(t), x) + {s[n].ind};
      } else {
        assert KeysBelow(m, x) == KeysBelow(Contents(t), x);
      }
    }
  }

  lemma RankWithoutLast(s: seq<Entry>, x: int)
    requires Sorted(s) && s != []
    ensures Rank(s, x) == Rank(s[..|s| - 1], x) + if s[|s| - 1].ind < x then 1 else 0
  {
    hide Rank;
    var t := s[..|s| - 1];
    if s[|s| - 1].ind < x {
      assert forall j :: 0 <= j < |t| ==> s[j].ind < x && t[j] == s[j];
      hide Sorted;
      RankUnique(s, x, |s|);
      RankUnique(t, x, |t|);
    } else {
      hide Sorted;
      RankUnique(s, x, Rank(t, x));
    }
  }

  lemma {:induction false} ContentsSize(s: seq<Entry>)
    requires Sorted(s)
    ensures |Contents(s)| == |s|
    decreases |s|
  {
    hide Contents, Rank;
    if s == [] {
      Emptied();
    } else {
      WithoutLast(s);
      At(s, |s| - 1);
      ContentsSize(s[..|s| - 1]);
      assert Contents(s).Keys == Contents(s[..|s| - 1]).Keys + {s[|s| - 1].ind};
    }
  }

  lemma PrefixContents(s: seq<Entry>, n: nat, k: int)
    requires Sorted(s) && n <= |s|
    ensures Sorted(s[..n])
    ensures k in Contents(s[..n]) <==> k in Contents(s) && Rank(s, k) < n
    ensures k in Contents(s[..n]) ==> Contents(s[..n])[k] == Contents(s)[k]
  {
    hide Contents, Rank;
    if k in Contents(s[..n]) {
      var j := Found(s[..n], k);
      At(s, j);
    }
    if k in Contents(s) && Rank(s, k) < n {
      var j := Found(s, k);
      At(s[..n], j);
    }
  }

  lemma ShiftOutOfMap(s: seq<Entry>, n: int)
    requires Sorted(s) && Natural(s)
    ensures var (t, answer) := Effect(s, ShiftOut(0, n));
            && Sorted(t) && Natural(t) && Sorted(answer.entries)
            && MapShift(Contents(s), Positive(n), Contents(t), Contents(answer.entries))
  {
    hide Contents, Sorted, Natural, Shift, Rank, KeysBelow;
    var (t, answer) := Effect(s, ShiftOut(0, n));
    ShiftKeeps(s, n);
    Emptied();
    if n > 0 {
      var m := Min(n, |s|);
      assert answer.entries == s[..m];
      PrefixContents(s, m, 0);
      forall k
        ensures k in Contents(t) <==> k + n in Contents(s) && |KeysBelow(Contents(s), k + n)| >= n
        ensures k in Contents(t) ==> Contents(t)[k] == Contents(s)[k + n]
        ensures k in Contents(answer.entries) <==> k in Contents(s) && |KeysBelow(Contents(s), k)| < n
        ensures k in Contents(answer.entries) ==> Contents(answer.entries)[k] == Contents(s)[k]
      {
        ShiftedContents(s, n, k);
        PrefixContents(s, m, k);
        KeysBelowRank(s, k);
        KeysBelowRank(s, k + n);
        if k in Contents(s) {
          var _ := Found(s, k);
        }
      }
    } else {
      Unshifted(s, n);
    }
  }

  lemma Unshifted(s: seq<Entry>, n: int)
    requires n <= 0
    ensures Shift(s, n) == s
  {
  }

  function Min(a: int, b: int): int { if a < b then a else b }

  lemma RenumberedContents(s: seq<Entry>, n: int, k: int)
    requires Sorted(s)
    ensures Sorted(Renumber(s, n))
    ensures k in Contents(Renumber(s, n)) <==> k - n in Contents(s)
    ensures k in Contents(Renumber(s, n)) ==> Contents(Renumber(s, n))[k] == Contents(s)[k - n]
  {
    hide Contents, Rank, Renumber;
    RenumberKeeps(s, n);
    if k in Contents(Renumber(s, n)) {
      var j := Found(Renumber(s, n), k);
      At(s, j);
    }
    if k - n in Contents(s) {
      var j := Found(s, k - n);
      At(Renumber(s, n), j);
    }
  }

  lemma FrontContents(e: Entry, r: seq<Entry>, k: int)
    requires Sorted(r) && Sorted([e] + r)
    ensures k in Contents([e] + r) <==> k == e.ind || k in Contents(r)
    ensures k in Contents([e] + r) ==> Contents([e] + r)[k] == if k == e.ind then e.value else Contents(r)[k]
  {
    hide Contents, Rank;
    At([e] + r, 0);
    if k in Contents([e] + r) {
      var j := Found([e] + r, k);
      if j > 0 {
        At(r, j - 1);
      }
    }
    if k in Contents(r) {
      var j := Found(r, k);
      At([e] + r, j + 1);
    }
  }

  lemma ShiftIntoMap(s: seq<Entry>, n: int, v: Value)
    requires Sorted(s) && Natural(s)
    ensures var t := Rshift(s, n, v);
            Sorted(t) && Natural(t) && |Contents(t)| == |t|
            && MapRshift(Contents(s), Positive(n), if n > 0 then v else None, Contents(t))
  {
    hide Contents, Sorted, Natural, Renumber, Rank;
    var t := Rshift(s, n, v);
    RshiftKeeps(s, n, v);
    ContentsSize(t);
    if n > 0 {
      forall k
        ensures k in Contents(t) <==> (v.Some? && k == 0) || k - n in Contents(s)
        ensures k in Contents(t) ==> Contents(t)[k] == if v.Some? && k == 0 then v else Contents(s)[k - n]
      {
        RenumberedContents(s, n, k);
        if v.Some? {
          FrontContents(Entry(0, v), Renumber(s, n), k);
        } else {
          assert t == Renumber(s, n);
        }
      }
    }
  }

  ghost function Lists(arrays: seq<SparseArray>): (s: seq<seq<Entry>>)
    reads arrays
    ensures |s| == |arrays| && forall k :: 0 <= k < |s| ==> s[k] == arrays[k].entries
  {
    seq(|arrays|, k requires 0 <= k < |arrays| reads arrays => arrays[k].entries)
  }

  ghost predicate Distinct(arrays: seq<SparseArray>) {
    forall j, k :: 0 <= j < k < |arrays| ==> arrays[j] != arrays[k]
  }

  // The elements of all lists are in foot.
  ghost predicate Inside(store: Store, foot: set<Element>)
    reads store, store.arrays
  {
    forall b: SparseArray, j {:trigger b.ring[j]} :: b in store.arrays && 0 <= j < |b.ring| ==> b.ring[j] in foot
  }

  // A chain is gone through.
  method Collect(r: Element?, ghost chain: seq<Element>, ghost s: seq<Entry>) returns (entries: seq<Entry>)
    requires r == (if chain == [] then null else chain[0])
    requires if s == [] then chain == [] else Chained(chain, s)
    ensures entries == s
  {
    entries := [];
    var e := r;
    ghost var k := 0;
    while e != null
      invariant k <= |chain| == |s| && e == (if k == |chain| then null else chain[k])
      invariant entries == s[..k]
      decreases |chain| - k
    {
      entries := entries + [Entry(e.ind, e.value)];
      e, k := e.next, k + 1;
    }
  }

  // One operation on an array.
  method Do(store: Store, a: SparseArray, op: Op, ghost foot: set<Element>)
    returns (answer: Answer, ghost foot': set<Element>)
    requires store.Valid() && a in store.arrays && Inside(store, foot)
    requires Natural(a.entries) && (op.InsertAt? ==> op.i >= 0)
    modifies store, store.arrays, foot
    ensures store.Valid() && store.Others(a) && (a.entries, answer) == Effect(old(a.entries), op)
    ensures Inside(store, foot') && foot <= foot' && fresh(foot' - foot)
  {
    hide Store.Valid, Sorted, Insert, Remove, Reference, Shift, Rshift, Ahead, Has, Rank;
    assert forall j :: 0 <= j < |a.ring| ==> a.ring[j] in foot;
    match op {
      case InsertAt(_, i, v) =>
        var status := store.Insert(a, i, v);
        answer := Status(status);
      case RemoveAt(_, i) =>
        Missing(a.entries, i);
        var r := store.Remove(a, i);
        answer := Got(if r == null then None else r.value);
      case LookUp(_, i) =>
        var v := store.Reference(a, i);
        answer := Got(v);
      case ShiftOut(_, n) =>
        var r, chain := store.Shift(a, n, false);
        var entries := Collect(r, chain,
          if n <= 0 then [] else if n >= |old(a.entries)| then old(a.entries) else Ahead(old(a.entries), n));
        answer := Elements(entries);
      case ShiftIn(_, n, v) =>
        var count := store.Rshift(a, n, v);
        answer := Count(count);
      case FlushAll(_) =>
        store.Mine(a);
        assert a.head == a.ring[0];
        store.Flush(a);
        answer := Done;
    }
    foot' := foot + set j | 0 <= j < |a.ring| :: a.ring[j];
  }

  lemma Missing(s: seq<Entry>, i: int)
    ensures !Has(s, i) ==> Reference(s, i) == None
  {
  }

  ghost function Elems(store: Store): set<Element>
    reads store, store.arrays
  {
    set a: SparseArray, j | a in store.arrays && 0 <= j < |a.ring| :: a.ring[j]
  }

  // The operations are carried out in order, on arrays of one store.
  method Run(store: Store, arrays: seq<SparseArray>, ops: seq<Op>) returns (answers: seq<Answer>)
    requires store.Valid() && Distinct(arrays)
    requires forall k :: 0 <= k < |arrays| ==> arrays[k] in store.arrays && Natural(arrays[k].entries)
    requires forall j :: 0 <= j < |ops| ==> Legal(ops[j], |arrays|)
    modifies store, store.arrays, Elems(store)
    ensures store.Valid() && Lists(arrays) == After(old(Lists(arrays)), ops, |ops|)
    ensures |answers| == |ops| && forall j :: 0 <= j < |ops| ==> answers[j] == AnswerTo(old(Lists(arrays)), ops, j)
  {
    hide Store.Valid, After, AnswerTo, Natural, Inside, Elems, Lists, Distinct, InOrder;
    answers := [];
    ghost var s := Lists(arrays);
    ghost var foot := Elems(store);
    AllInOrder(store, arrays);
    InsideAll(store);
    AfterNone(s, ops);
    for i := 0 to |ops|
      invariant store.Valid() && store.arrays == old(store.arrays)
      invariant Lists(arrays) == After(s, ops, i)
      invariant |answers| == i && forall j :: 0 <= j < i ==> answers[j] == AnswerTo(s, ops, j)
      invariant Inside(store, foot) && fresh(foot - old(Elems(store)))
    {
      var answer;
      answer, foot := Next(store, arrays, ops[i], s, ops, i, foot);
      answers := answers + [answer];
    }
  }

  lemma AfterNone(s: seq<seq<Entry>>, ops: seq<Op>)
    requires forall j :: 0 <= j < |ops| ==> Legal(ops[j], |s|)
    ensures After(s, ops, 0) == s
  {
  }

  lemma InsideAll(store: Store)
    ensures Inside(store, Elems(store))
  {
  }

  // The i-th operation of ops on what the lists have become of s.
  method Next(store: Store, arrays: seq<SparseArray>, op: Op, ghost s: seq<seq<Entry>>, ghost ops: seq<Op>,
      ghost i: nat,
              ghost foot: set<Element>)
    returns (answer: Answer, ghost foot': set<Element>)
    requires store.Valid() && Distinct(arrays) && Inside(store, foot)
    requires forall k :: 0 <= k < |arrays| ==> arrays[k] in store.arrays
    requires i < |ops| && ops[i] == op && |s| == |arrays| && InOrder(s) &&
             forall j :: 0 <= j < |ops| ==> Legal(ops[j], |s|)
    requires Lists(arrays) == After(s, ops, i)
    modifies store, store.arrays, foot
    ensures store.Valid() && store.arrays == old(store.arrays)
    ensures Lists(arrays) == After(s, ops, i + 1) && answer == AnswerTo(s, ops, i)
    ensures Inside(store, foot') && foot <= foot' && fresh(foot' - foot)
  {
    hide Store.Valid, Sorted, Effect, MapEffect, Natural, Inside, Contents;
    RunsAsMaps(s, ops, i);
    answer, foot' := Do(store, arrays[op.a], op, foot);
    assert Lists(arrays) == Step(After(s, ops, i), op);
  }

  lemma AllInOrder(store: Store, arrays: seq<SparseArray>)
    requires store.Valid() && forall k :: 0 <= k < |arrays| ==> arrays[k] in store.arrays && Natural(arrays[k].entries)
    ensures InOrder(Lists(arrays))
  {
  }

  // array_push at the start of a function call and array_pop at its end, on the arrays that
  // record the calls.
  method PushThenPop(store: Store, a: SparseArray, v: string)
    requires store.Valid() && a in store.arrays && (a.entries != [] ==> a.entries[0].ind >= 0)
    modifies store`lastarray, store`lastref, a, a.ring
    ensures store.Valid() && store.Others(a) && a.entries == old(a.entries)
  {
    hide Store.Valid, Sorted, Shift, Rshift;
    var _ := store.Rshift(a, 1, Some(v));
    var _, _ := store.Shift(a, 1, false);
    PushPop(old(a.entries), Some(v));
  }
}
