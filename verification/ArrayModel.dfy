/** What the arrays of array.c hold: entries in ascending order of their indices, which is
    to say a finite map. */
module ArrayModel {
  import opened Options

  type Value = Option<string>          // a C string or a null pointer

  datatype Entry = Entry(ind: int, value: Value)

  predicate Sorted(s: seq<Entry>) {
    forall j, k :: 0 <= j < k < |s| ==> s[j].ind < s[k].ind
  }

  predicate Natural(s: seq<Entry>) {
    forall j :: 0 <= j < |s| ==> s[j].ind >= 0
  }

  // max_index; the dummy head has index -1.
  function Max(s: seq<Entry>): int {
    if s == [] then -1 else s[|s| - 1].ind
  }

  function Contents(s: seq<Entry>): map<int, Value>
    requires Sorted(s)
  {
    map j {:trigger s[j]} | 0 <= j < |s| :: s[j].ind := s[j].value
  }

  // The place of index i: the first entry from i on.
  function Rank(s: seq<Entry>, i: int): (p: nat)
    ensures p <= |s| && (p < |s| ==> s[p].ind >= i) && forall j :: 0 <= j < p ==> s[j].ind < i
  {
    if s == [] || s[0].ind >= i then 0 else 1 + Rank(s[1..], i)
  }

  lemma {:induction false} RankUnique(s: seq<Entry>, i: int, p: nat)
    requires p <= |s| && (p < |s| ==> s[p].ind >= i) && forall j :: 0 <= j < p ==> s[j].ind < i
    ensures Rank(s, i) == p
  {
    if s != [] && s[0].ind < i {
      RankUnique(s[1..], i, p - 1);
    }
  }

  predicate Has(s: seq<Entry>, i: int) {
    Rank(s, i) < |s| && s[Rank(s, i)].ind == i
  }

  // array_insert; an empty array takes no negative index.
  function Insert(s: seq<Entry>, i: int, v: Value): seq<Entry> {
    var p := Rank(s, i);
    if Has(s, i) then s[p := Entry(i, v)]
    else if s == [] && i < 0 then s
    else s[..p] + [Entry(i, v)] + s[p..]
  }

  function Remove(s: seq<Entry>, i: int): seq<Entry> {
    if Has(s, i) then s[..Rank(s, i)] + s[Rank(s, i) + 1..] else s
  }

  function Reference(s: seq<Entry>, i: int): Value {
    if Has(s, i) then s[Rank(s, i)].value else None
  }

  function Renumber(s: seq<Entry>, n: int): (r: seq<Entry>)
    ensures |r| == |s|
    ensures forall j :: 0 <= j < |s| ==> r[j] == Entry(s[j].ind + n, s[j].value)
  {
    seq(|s|, j requires 0 <= j < |s| => Entry(s[j].ind + n, s[j].value))
  }

  // array_shift.
  function Shift(s: seq<Entry>, n: int): seq<Entry> {
    if n <= 0 then s else if n >= |s| then [] else Renumber(s[n..], -n)
  }

  // array_rshift.
  function Rshift(s: seq<Entry>, n: int, v: Value): seq<Entry> {
    if n <= 0 then s else (if v.Some? then [Entry(0, v)] else []) + Renumber(s, n)
  }

  // ---- as a map ----

  lemma At(s: seq<Entry>, j: nat)
    requires Sorted(s) && j < |s|
    ensures s[j].ind in Contents(s) && Contents(s)[s[j].ind] == s[j].value && Rank(s, s[j].ind) == j
  {
  }

  lemma Found(s: seq<Entry>, i: int) returns (j: nat)
    requires Sorted(s) && i in Contents(s)
    ensures j < |s| && s[j].ind == i && Contents(s)[i] == s[j].value && Rank(s, i) == j
  {
    j :| j < |s| && s[j].ind == i;
    At(s, j);
  }

  lemma In(s: seq<Entry>, i: int)
    requires Sorted(s)
    ensures i in Contents(s) <==> Has(s, i)
    ensures Has(s, i) ==> Contents(s)[i] == s[Rank(s, i)].value
  {
    if i in Contents(s) {
      var _ := Found(s, i);
    }
  }

  lemma Emptied()
    ensures Sorted([]) && Natural([]) && Contents([]) == map[]
  {
  }

  lemma MaxNatural(s: seq<Entry>)
    ensures Natural(s) ==> Max(s) >= -1
  {
  }

  // The entries are determined by the map.
  lemma {:induction false} SameContents(s: seq<Entry>, t: seq<Entry>)
    requires Sorted(s) && Sorted(t) && Contents(s) == Contents(t)
    ensures s == t
    decreases |s|
  {
    hide Contents, Rank;
    if s != [] && t != [] {
      var m, n := |s| - 1, |t| - 1;
      LastIsMax(s, t);
      assert Contents(s[..m]) == Contents(t[..n]) by {
        WithoutLast(s);
        WithoutLast(t);
      }
      SameContents(s[..m], t[..n]);
      assert s == s[..m] + [s[m]] && t == t[..n] + [t[n]];
    } else if s != [] {
      At(s, 0);
      var _ := Found(t, s[0].ind);
    } else if t != [] {
      At(t, 0);
      var _ := Found(s, t[0].ind);
    }
  }

  lemma LastIsMax(s: seq<Entry>, t: seq<Entry>)
    requires Sorted(s) && Sorted(t) && Contents(s) == Contents(t) && s != [] && t != []
    ensures s[|s| - 1] == t[|t| - 1]
  {
    hide Contents, Rank;
    At(s, |s| - 1);
    At(t, |t| - 1);
    var j := Found(s, t[|t| - 1].ind);
    var k := Found(t, s[|s| - 1].ind);
  }

  lemma WithoutLast(s: seq<Entry>)
    requires Sorted(s) && s != []
    ensures Contents(s[..|s| - 1]) == Contents(s) - {s[|s| - 1].ind}
  {
    hide Contents, Rank;
    var t := s[..|s| - 1];
    forall i ensures i in Contents(t) <==> i in Contents(s) - {s[|s| - 1].ind}
             ensures i in Contents(t) ==> Contents(t)[i] == Contents(s)[i] {
      RemoveAt(s, t, |s| - 1, i);
    }
  }

  // array_insert is map update, and keeps the order.  It fails on an empty array with a
  // negative index, and only then.
  lemma InsertIsUpdate(s: seq<Entry>, i: int, v: Value)
    requires Sorted(s)
    ensures Sorted(Insert(s, i, v))
    ensures Contents(Insert(s, i, v)) == Contents(s)[i := v] <==> i >= 0 || s != []
    ensures |Insert(s, i, v)| == |s| + if Has(s, i) || (s == [] && i < 0) then 0 else 1
    ensures i >= 0 && Natural(s) ==> Natural(Insert(s, i, v))
  {
    hide Contents;
    var p, t := Rank(s, i), Insert(s, i, v);
    if i < 0 && s == [] {
      if i in Contents(s) {
        var _ := Found(s, i);
      }
    } else {
      var d := if Has(s, i) then 0 else 1;
      InsertPlaces(s, i, v);
      hide Rank, Insert, Has;
      forall k ensures k in Contents(t) <==> k in Contents(s)[i := v]
               ensures k in Contents(t) ==> Contents(t)[k] == Contents(s)[i := v][k] {
        InsertAt(s, t, i, v, p, d, k);
      }
    }
  }

  // t is s with e at p, in place of an entry or pushing the rest up by d.
  predicate Spliced(s: seq<Entry>, t: seq<Entry>, e: Entry, p: nat, d: int)
    requires 0 <= d <= 1 && |t| == |s| + d && p < |t|
  {
    && t[p] == e
    && (forall j {:trigger t[j]} {:trigger s[j]} :: 0 <= j < p ==> t[j] == s[j])
    && (forall j {:trigger t[j]} :: p < j < |t| ==> t[j] == s[j - d])
    && (forall j {:trigger s[j]} :: p <= j < |s| && p < j + d ==> t[j + d] == s[j])
  }

  lemma InsertLast(s: seq<Entry>, i: int, v: Value)
    requires Sorted(s) && i > Max(s)
    ensures Insert(s, i, v) == s + [Entry(i, v)] && Sorted(s + [Entry(i, v)])
  {
    RankUnique(s, i, |s|);
  }

  lemma InsertBefore(s: seq<Entry>, i: int, v: Value, p: nat)
    requires Sorted(s) && p < |s| && s[p].ind > i && p <= Rank(s, i)
    ensures Insert(s, i, v) == s[..p] + [Entry(i, v)] + s[p..]
    ensures Sorted(Insert(s, i, v)) && Max(Insert(s, i, v)) == Max(s)
  {
    RankUnique(s, i, p);
    hide Rank;
    InsertPlaces(s, i, v);
  }

  lemma InsertAgain(s: seq<Entry>, p: nat, v: Value)
    requires Sorted(s) && p < |s|
    ensures Insert(s, s[p].ind, v) == s[p := Entry(s[p].ind, v)]
    ensures Sorted(Insert(s, s[p].ind, v)) && Max(Insert(s, s[p].ind, v)) == Max(s)
  {
    hide Sorted, Rank;
    At(s, p);
    SameIndices(s, s[p := Entry(s[p].ind, v)]);
  }

  lemma SameIndices(s: seq<Entry>, t: seq<Entry>)
    requires Sorted(s) && |t| == |s| && forall j :: 0 <= j < |s| ==> t[j].ind == s[j].ind
    ensures Sorted(t) && Max(t) == Max(s)
  {
  }

  lemma InsertPlaces(s: seq<Entry>, i: int, v: Value)
    requires Sorted(s) && (i >= 0 || s != [])
    ensures var p, t, d := Rank(s, i), Insert(s, i, v), if Has(s, i) then 0 else 1;
            && |t| == |s| + d && p < |t| && Sorted(t) && (i >= 0 && Natural(s) ==> Natural(t))
            && Spliced(s, t, Entry(i, v), p, d)
  {
    hide Rank;
    var p, t, d := Rank(s, i), Insert(s, i, v), if Has(s, i) then 0 else 1;
    assert Spliced(s, t, Entry(i, v), p, d);
    assert forall j {:trigger s[j]} :: p <= j < |s| && p < j + d ==> s[j].ind > i;
    hide Insert, Has;
    SplicedSorted(s, t, Entry(i, v), p, d);
  }

  lemma SplicedSorted(s: seq<Entry>, t: seq<Entry>, e: Entry, p: nat, d: int)
    requires Sorted(s) && 0 <= d <= 1 && |t| == |s| + d && p < |t| && Spliced(s, t, e, p, d)
    requires forall j :: 0 <= j < p ==> s[j].ind < e.ind
    requires forall j :: p <= j < |s| && p < j + d ==> s[j].ind > e.ind
    ensures Sorted(t) && (e.ind >= 0 && Natural(s) ==> Natural(t))
  {
    forall j, k | 0 <= j < k < |t| ensures t[j].ind < t[k].ind {
      if p < j {
        assert t[j] == s[j - d] && t[k] == s[k - d];
      } else if k > p {
        assert t[k] == s[k - d];
      }
    }
    if e.ind >= 0 && Natural(s) {
      forall j | 0 <= j < |t| ensures t[j].ind >= 0 {
        assert p < j ==> t[j] == s[j - d];
      }
    }
  }

  lemma InsertAt(s: seq<Entry>, t: seq<Entry>, i: int, v: Value, p: nat, d: int, k: int)
    requires Sorted(s) && Sorted(t) && 0 <= d <= 1 && |t| == |s| + d && p < |t|
    requires d == 0 ==> s[p].ind == i
    requires Spliced(s, t, Entry(i, v), p, d)
    ensures k in Contents(t) <==> k in Contents(s)[i := v]
    ensures k in Contents(t) ==> Contents(t)[k] == Contents(s)[i := v][k]
  {
    hide Rank, Contents, Sorted;
    At(t, p);
    if k != i && k in Contents(t) {
      var j := Found(t, k);
      At(s, if j < p then j else j - d);
    }
    if k != i && k in Contents(s) {
      var j := Found(s, k);
      At(t, if j < p then j else j + d);
    }
  }

  lemma RemoveAgain(s: seq<Entry>, p: nat)
    requires Sorted(s) && p < |s|
    ensures Rank(s, s[p].ind) == p && Has(s, s[p].ind)
    ensures Remove(s, s[p].ind) == s[..p] + s[p + 1..]
  {
    hide Rank, Sorted;
    At(s, p);
  }

  lemma ReferenceAt(s: seq<Entry>, p: nat)
    requires Sorted(s) && p < |s|
    ensures Reference(s, s[p].ind) == s[p].value
  {
    hide Rank, Sorted;
    At(s, p);
  }

  lemma LastIndex(s: seq<Entry>, p: nat)
    requires Sorted(s) && p < |s|
    ensures s[p].ind == Max(s) <==> p == |s| - 1
  {
  }

  lemma CutSorted(s: seq<Entry>, p: nat)
    requires Sorted(s) && p < |s|
    ensures Sorted(s[..p] + s[p + 1..])
  {
    var t := s[..p] + s[p + 1..];
    forall j, k | 0 <= j < k < |t| ensures t[j].ind < t[k].ind {
      assert t[j] == s[if j < p then j else j + 1] && t[k] == s[if k < p then k else k + 1];
    }
  }

  lemma RemoveIsRemoval(s: seq<Entry>, i: int)
    requires Sorted(s)
    ensures Sorted(Remove(s, i))
    ensures Contents(Remove(s, i)) == Contents(s) - {i}
    ensures |Remove(s, i)| == |s| - if Has(s, i) then 1 else 0
    ensures Natural(s) ==> Natural(Remove(s, i))
  {
    hide Contents;
    var p, t := Rank(s, i), Remove(s, i);
    In(s, i);
    if Has(s, i) {
      assert Cut(s, t, p);
      hide Rank, Remove;
      forall k ensures k in Contents(t) <==> k in Contents(s) - {i}
               ensures k in Contents(t) ==> Contents(t)[k] == Contents(s)[k] {
        RemoveAt(s, t, p, k);
      }
    }
  }

  predicate Cut(s: seq<Entry>, t: seq<Entry>, p: nat)
    requires |t| == |s| - 1 && p < |s|
  {
    && (forall j {:trigger t[j]} {:trigger s[j]} :: 0 <= j < p ==> t[j] == s[j])
    && (forall j {:trigger t[j]} :: p <= j < |t| ==> t[j] == s[j + 1])
    && (forall j {:trigger s[j]} :: p < j < |s| ==> t[j - 1] == s[j])
  }

  lemma RemoveAt(s: seq<Entry>, t: seq<Entry>, p: nat, k: int)
    requires Sorted(s) && Sorted(t) && |t| == |s| - 1 && p < |s|
    requires Cut(s, t, p)
    ensures k in Contents(t) <==> k in Contents(s) - {s[p].ind}
    ensures k in Contents(t) ==> Contents(t)[k] == Contents(s)[k]
  {
    hide Rank, Contents;
    if k in Contents(t) {
      var j := Found(t, k);
      At(s, if j < p then j else j + 1);
    }
    if k in Contents(s) && k != s[p].ind {
      var j := Found(s, k);
      At(t, if j < p then j else j - 1);
    }
  }

  lemma ReferenceIsLookup(s: seq<Entry>, i: int)
    requires Sorted(s)
    ensures Reference(s, i) == if i in Contents(s) then Contents(s)[i] else None
  {
    In(s, i);
  }

  // ---- shifting ----

  // The element of rank k has an index of k or more.
  lemma {:induction false} RankBelowIndex(s: seq<Entry>, k: nat)
    requires Sorted(s) && Natural(s) && k < |s|
    ensures s[k].ind >= k
  {
    if k > 0 {
      RankBelowIndex(s, k - 1);
    }
  }

  // What is left after shifting out n elements is what had the ranks from n on, its indices
  // lower by n and still not negative.
  lemma ShiftKeeps(s: seq<Entry>, n: int)
    requires Sorted(s)
    ensures Sorted(Shift(s, n))
    ensures Natural(s) ==> Natural(Shift(s, n))
    ensures n >= 0 ==> |Shift(s, n)| == if n >= |s| then 0 else |s| - n
  {
    var t, m := Shift(s, n), if n > 0 then n else 0;
    if Natural(s) {
      forall j | 0 <= j < |t| ensures t[j].ind >= 0 {
        RankBelowIndex(s, j + m);
      }
    }
  }

  lemma ShiftedContents(s: seq<Entry>, n: nat, i: int)
    requires Sorted(s) && Sorted(Shift(s, n))
    ensures i in Contents(Shift(s, n)) <==> i + n in Contents(s) && Rank(s, i + n) >= n
    ensures i in Contents(Shift(s, n)) ==> Contents(Shift(s, n))[i] == Contents(s)[i + n]
  {
    hide Rank, Contents, Shift, Sorted;
    var t := Shift(s, n);
    if i in Contents(t) {
      var j := Found(t, i);
      ShiftedAt(s, n, j);
      At(s, j + n);
    }
    if i + n in Contents(s) && Rank(s, i + n) >= n {
      var j := Found(s, i + n);
      ShiftedAt(s, n, j - n);
      At(t, j - n);
    }
  }

  lemma ShiftedAt(s: seq<Entry>, n: nat, j: nat)
    ensures j < |Shift(s, n)| <==> j + n < |s|
    ensures j + n < |s| ==> Shift(s, n)[j] == Entry(s[j + n].ind - n, s[j + n].value)
  {
  }

  // array_rshift keeps the order exactly when the new element 0 comes before the rest, as it
  // does if no index is negative.
  lemma RshiftKeeps(s: seq<Entry>, n: int, v: Value)
    requires Sorted(s)
    ensures Sorted(Rshift(s, n, v)) <==> (n > 0 && v.Some? && s != [] ==> s[0].ind + n > 0)
    ensures Natural(s) ==> Sorted(Rshift(s, n, v)) && Natural(Rshift(s, n, v))
  {
    hide Renumber, Sorted, Natural;
    if n > 0 {
      RenumberKeeps(s, n);
      InFront(Entry(0, v), Renumber(s, n));
      assert v.None? ==> Rshift(s, n, v) == Renumber(s, n);
      FirstOf(s);
    }
  }

  lemma FirstOf(s: seq<Entry>)
    ensures Natural(s) && s != [] ==> s[0].ind >= 0
  {
  }

  lemma RenumberKeeps(s: seq<Entry>, n: int)
    requires Sorted(s)
    ensures Sorted(Renumber(s, n)) && (Natural(s) && n >= 0 ==> Natural(Renumber(s, n)))
  {
    hide Renumber;
  }

  lemma InFront(e: Entry, r: seq<Entry>)
    requires Sorted(r)
    ensures Sorted([e] + r) <==> (r != [] ==> e.ind < r[0].ind)
    ensures Natural([e] + r) <==> e.ind >= 0 && Natural(r)
  {
    var t := [e] + r;
    assert t[0] == e && t[1..] == r && (r != [] ==> t[1] == r[0]);
    if r != [] && e.ind < r[0].ind {
      forall j, k | 0 <= j < k < |t| ensures t[j].ind < t[k].ind {
        assert r[0].ind <= r[k - 1].ind && (j > 0 ==> r[j - 1].ind < r[k - 1].ind);
      }
    }
  }

  // array_pop undoes array_push of a value; of a null pointer only on an empty array.
  lemma PushPop(s: seq<Entry>, v: Value)
    ensures Shift(Rshift(s, 1, v), 1) == s <==> v.Some? || s == []
  {
    var t := Rshift(s, 1, v);
    if v.Some? {
      assert t[1..] == Renumber(s, 1);
      assert Shift(t, 1) == s;
    } else if s != [] {
      assert |Shift(t, 1)| < |s|;
    }
  }

  // The entries from p on, renumbered.
  function RenumberTail(s: seq<Entry>, p: nat, n: int): seq<Entry>
    requires p <= |s|
  {
    s[..p] + Renumber(s[p..], n)
  }

  function InFrontOf(e: Entry, s: seq<Entry>): (r: seq<Entry>)
    ensures |r| == |s| + 1
  {
    [e] + s
  }

  function Behind(s: seq<Entry>, n: int): (r: seq<Entry>)
    requires 0 <= n <= |s|
    ensures |r| == |s| - n
  {
    s[n..]
  }

  function Ahead(s: seq<Entry>, n: int): (r: seq<Entry>)
    requires 0 <= n <= |s|
    ensures |r| == n
  {
    s[..n]
  }

  lemma RshiftParts(s: seq<Entry>, n: int, v: Value)
    requires n > 0
    ensures v.Some? ==> RenumberTail(InFrontOf(Entry(0, v), s), 1, n) == Rshift(s, n, v)
    ensures v.Some? && s == [] ==> InFrontOf(Entry(0, v), s) == Rshift(s, n, v) && Max(Rshift(s, n, v)) == 0
    ensures v.None? ==> RenumberTail(s, 0, n) == Rshift(s, n, v)
    ensures |Rshift(s, n, v)| == |s| + if v.Some? then 1 else 0
  {
    assert ([Entry(0, v)] + s)[1..] == s && s[0..] == s;
  }

  // What array_shift retains of more than n entries.
  function Retained(s: seq<Entry>, n: int): seq<Entry>
    requires 0 < n < |s|
  {
    Renumber(Behind(s, n), -n)
  }

  lemma RetainedIs(s: seq<Entry>, n: int)
    requires 0 < n < |s| && Sorted(s)
    ensures Retained(s, n) == RenumberTail(Behind(s, n), 0, -n)
    ensures Sorted(Retained(s, n)) && |Retained(s, n)| == |s| - n
  {
    assert s[n..][0..] == s[n..];
    ShiftKeeps(s, n);
  }

  lemma RetainedIsShift(s: seq<Entry>, n: int)
    requires 0 < n < |s|
    ensures Retained(s, n) == Shift(s, n)
  {
  }
}
