/** The arrays of array.c: circular doubly linked lists behind a dummy head, all of them
    sharing one cached reference to the element last used. */
module ArrayStore {
  import opened Options
  import opened ArrayModel

  class Element {
    var ind: int
    var value: Value
    var next: Element?
    var prev: Element?

    // array_create_element.
    constructor (i: int, v: Value)
      ensures ind == i && value == v
    {
      ind, value, next, prev := i, v, null, null;
    }
  }

  // r goes once around a list, from the head back to the head.
  ghost predicate Ring(r: seq<Element>)
    reads r`next, r`prev
  {
    && |r| >= 2 && r[0] == r[|r| - 1]
    && (forall j, k :: 0 <= j < k < |r| - 1 ==> r[j] != r[k])
    && (forall j {:trigger r[j].next} :: 0 <= j < |r| - 1 ==> r[j].next == r[j + 1])
    && (forall j {:trigger r[j].prev} :: 0 < j < |r| ==> r[j].prev == r[j - 1])
  }

  lemma RingNext(r: seq<Element>, j: nat)
    requires Ring(r) && j < |r| - 1
    ensures |r| >= 2 && r[0] == r[|r| - 1] && r[j].next == r[j + 1]
    ensures j + 1 == |r| - 1 <==> r[j + 1] == r[0]
  {
  }

  // Its elements, behind the head, are s.
  ghost predicate Holds(r: seq<Element>, s: seq<Entry>)
    reads r`ind, r`value
  {
    && |r| == |s| + 2
    && forall j {:trigger r[j].ind} {:trigger r[j].value} :: 0 < j < |r| - 1 ==> s[j - 1] == Entry(r[j].ind, r[j].value)
  }

  // A ring, but for the links over the element at p, which still has its own.
  ghost predicate Skips(r: seq<Element>, p: nat)
    requires 0 < p < |r| - 1
    reads r`next, r`prev
  {
    && r[0] == r[|r| - 1]
    && (forall j, k :: 0 <= j < k < |r| - 1 ==> r[j] != r[k])
    && (forall j {:trigger r[j].next} :: 0 <= j < |r| - 1 ==> r[j].next == r[if j == p - 1 then p + 1 else j + 1])
    && (forall j {:trigger r[j].prev} :: 0 < j < |r| ==> r[j].prev == r[if j == p + 1 then p - 1 else j - 1])
  }

  lemma RingCut(r: seq<Element>, p: nat)
    requires 0 < p < |r| - 1 && Skips(r, p)
    ensures Ring(r[..p] + r[p + 1..])
    ensures r[p].next == r[p + 1] && r[p].prev == r[p - 1]
  {
  }

  lemma HoldsCut(r: seq<Element>, s: seq<Entry>, p: nat)
    requires 0 < p < |r| - 1 && Holds(r, s)
    ensures Holds(r[..p] + r[p + 1..], s[..p - 1] + s[p..])
  {
  }

  // c is a null-terminated chain of elements holding s.
  ghost predicate Chained(c: seq<Element>, s: seq<Entry>)
    reads c
  {
    && |c| == |s|
    && (forall j {:trigger c[j].ind} {:trigger c[j].value} :: 0 <= j < |c| ==> s[j] == Entry(c[j].ind, c[j].value))
    && (forall j {:trigger c[j].next} :: 0 <= j < |c| ==> c[j].next == if j == |c| - 1 then null else c[j + 1])
  }

  class SparseArray {
    var maxIndex: int
    var numElements: int
    const head: Element
    ghost var ring: seq<Element>
    ghost var entries: seq<Entry>

    // array_create.
    constructor ()
      ensures Ok() && entries == [] && fresh(head) && ring == [head, head]
    {
      maxIndex, numElements := -1, 0;
      head := new Element(-1, None);
      entries := [];
      new;
      head.next, head.prev := head, head;
      ring := [head, head];
    }

    // The list goes around, in ascending order, and the counters are right.
    ghost predicate Ok()
      reads this, ring
    {
      && Ring(ring) && ring[0] == head && head.ind == -1
      && Holds(ring, entries) && Sorted(entries)
      && numElements == |entries| && maxIndex == Max(entries)
    }

    // ADD_BEFORE: nu goes before ae, which is at p.
    method AddBefore(ae: Element, nu: Element, ghost p: nat)
      requires Ring(ring) && Holds(ring, entries) && 0 < p < |ring| && ring[p] == ae && nu !in ring
      modifies this`ring, this`entries, ring, nu
      ensures Ring(ring) && Holds(ring, entries)
      ensures ring == old(ring[..p] + [nu] + ring[p..])
      ensures entries == old(entries[..p - 1] + [Entry(nu.ind, nu.value)] + entries[p - 1..])
      ensures nu.ind == old(nu.ind) && nu.value == old(nu.value)
      ensures forall e :: e in old(ring) ==> e.ind == old(e.ind) && e.value == old(e.value)
    {
      hide Ring;
      Link(ae, nu, p);
      entries := entries[..p - 1] + [Entry(nu.ind, nu.value)] + entries[p - 1..];
      ring := ring[..p] + [nu] + ring[p..];
    }

    method Link(ae: Element, nu: Element, ghost p: nat)
      requires Ring(ring) && 0 < p < |ring| && ring[p] == ae && nu !in ring
      modifies ring, nu
      ensures Ring(ring[..p] + [nu] + ring[p..])
      ensures nu.ind == old(nu.ind) && nu.value == old(nu.value)
      ensures forall e :: e in ring ==> e.ind == old(e.ind) && e.value == old(e.value)
    {
      ae.prev.next := nu;
      nu.prev := ae.prev;
      ae.prev := nu;
      nu.next := ae;
      RingWith(ring, nu, p);
    }

    static lemma RingWith(r: seq<Element>, nu: Element, p: nat)
      requires 0 < p < |r| && r[0] == r[|r| - 1] && nu !in r && |r| >= 2
      requires forall j, k :: 0 <= j < k < |r| - 1 ==> r[j] != r[k]
      requires forall j {:trigger r[j].next} :: 0 <= j < |r| - 1 ==> r[j].next == if j == p - 1 then nu else r[j + 1]
      requires forall j {:trigger r[j].prev} :: 0 < j < |r| ==> r[j].prev == if j == p then nu else r[j - 1]
      requires nu.next == r[p] && nu.prev == r[p - 1]
      ensures Ring(r[..p] + [nu] + r[p..])
    {
    }

    // ADD_BEFORE the head.
    method AddLast(nu: Element)
      requires Ring(ring) && Holds(ring, entries) && ring[0] == head && nu !in ring
      modifies this`ring, this`entries, ring, nu
      ensures Ring(ring) && Holds(ring, entries) && ring[0] == head && head.ind == old(head.ind)
      ensures |ring| >= 3 && ring[|ring| - 2] == nu
      ensures forall j :: 0 <= j < |ring| ==> ring[j] in old(ring) || ring[j] == nu
      ensures entries == old(entries) + [Entry(nu.ind, nu.value)]
      ensures nu.ind == old(nu.ind) && nu.value == old(nu.value)
    {
      AddBefore(head, nu, |ring| - 1);
    }

    // The element at p is taken out.
    method Unlink(ae: Element, ghost p: nat)
      requires Ring(ring) && Holds(ring, entries) && 0 < p < |ring| - 1 && ring[p] == ae
      modifies this`ring, this`entries, ring
      ensures Ring(ring) && Holds(ring, entries)
      ensures ring == old(ring[..p] + ring[p + 1..])
      ensures entries == old(entries[..p - 1] + entries[p..])
      ensures forall e :: e in old(ring) ==> e.ind == old(e.ind) && e.value == old(e.value)
      ensures ae.next == old(ring[p + 1]) && ae.prev == old(ring[p - 1])
    {
      Bypass(ae, p);
      RingCut(ring, p);
      HoldsCut(ring, entries, p);
      entries := entries[..p - 1] + entries[p..];
      ring := ring[..p] + ring[p + 1..];
    }

    method Bypass(ae: Element, ghost p: nat)
      requires Ring(ring) && 0 < p < |ring| - 1 && ring[p] == ae
      modifies ring`next, ring`prev
      ensures Skips(ring, p)
    {
      ae.next.prev := ae.prev;
      ae.prev.next := ae.next;
    }

    // The element at p is taken out, and the counters are put right.
    method Take(ae: Element, ghost p: nat)
      requires Ok() && 0 < p < |ring| - 1 && ring[p] == ae
      modifies this, ring
      ensures Ok() && ring == old(ring[..p] + ring[p + 1..]) && entries == Remove(old(entries), ae.ind)
      ensures ae.next == old(ring[p + 1]) && ae.prev == old(ring[p - 1])
      ensures ae.ind == old(ae.ind) && ae.value == old(ae.value)
      ensures Has(old(entries), ae.ind) && ae.value == Reference(old(entries), ae.ind)
      ensures ae !in ring
    {
      hide Rank, Sorted, Has, Remove, Reference;
      RemoveAgain(entries, p - 1);
      CutSorted(entries, p - 1);
      LastIndex(entries, p - 1);
      ReferenceAt(entries, p - 1);
      Unlink(ae, p);
      numElements := numElements - 1;
      if ae.ind == maxIndex {
        maxIndex := ae.prev.ind;
      }
    }

    // Renumbering the elements from ae on, which is at p.
    method RenumberFrom(first: Element, ghost p: nat, n: int)
      requires Ring(ring) && Holds(ring, entries) && 0 < p < |ring| && ring[p] == first && ring[0] == head
      modifies this`entries, ring`ind
      ensures Ring(ring) && Holds(ring, entries) && head.ind == old(head.ind)
      ensures entries == RenumberTail(old(entries), p - 1, n)
    {
      hide Ring, Holds, RenumberTail;
      var ae := first;
      ghost var q := p;
      HoldsSize(ring, entries);
      HoldsTail(ring, entries, p, q, n);
      RingNext(ring, p - 1);
      while ae != head
        invariant p <= q < |ring| && ring[q] == ae && (q == |ring| - 1 <==> ae == head)
        invariant unchanged(`ring) && unchanged(`entries) && head.ind == old(head.ind)
        invariant Ring(ring) && HoldsUpTo(ring, entries, p, q, n)
        decreases |ring| - q
        modifies ring`ind
      {
        Bump(ae, p, q, n);
        RingNext(ring, q);
        ae, q := ae.next, q + 1;
      }
      HoldsTail(ring, entries, p, q, n);
      entries := RenumberTail(entries, p - 1, n);
    }

    method Bump(ae: Element, ghost p: nat, ghost q: nat, n: int)
      requires Ring(ring) && HoldsUpTo(ring, entries, p, q, n) && 0 < p <= q < |ring| - 1 && ring[q] == ae &&
               ring[0] == head
      modifies ae`ind
      ensures HoldsUpTo(ring, entries, p, q + 1, n) && head.ind == old(head.ind)
    {
      assert forall j :: 0 <= j < |ring| - 1 && j != q ==> ring[j] != ae;
      ae.ind := ae.ind + n;
    }

    static lemma HoldsSize(r: seq<Element>, s: seq<Entry>)
      requires Holds(r, s)
      ensures |r| == |s| + 2
    {
    }

    static lemma HoldsTail(r: seq<Element>, s: seq<Entry>, p: nat, q: nat, n: int)
      requires 0 < p < |r| && |r| == |s| + 2
      ensures q == p ==> (HoldsUpTo(r, s, p, q, n) <==> Holds(r, s))
      ensures q == |r| - 1 && HoldsUpTo(r, s, p, q, n) ==> Holds(r, RenumberTail(s, p - 1, n))
    {
      if q == |r| - 1 && HoldsUpTo(r, s, p, q, n) {
        var t := RenumberTail(s, p - 1, n);
        forall j | 0 < j < |r| - 1 ensures t[j - 1] == Entry(r[j].ind, r[j].value) {
        }
      }
    }

    // The elements from p up to q have been renumbered.
    static ghost predicate HoldsUpTo(r: seq<Element>, s: seq<Entry>, p: nat, q: nat, n: int)
      reads r`ind, r`value
    {
      && |r| == |s| + 2
      && forall j {:trigger r[j]} :: 0 < j < |r| - 1 ==>
        s[j - 1] == Entry(r[j].ind - (if p <= j < q then n else 0), r[j].value)
    }

    // The largest index is that of the last element, or of the head.
    method LastInd() returns (i: int)
      requires Ring(ring) && Holds(ring, entries) && ring[0] == head && head.ind == -1
      ensures i == Max(entries)
    {
      assert ring[|ring| - 1].prev == ring[|ring| - 2];
      i := head.prev.ind;
    }

    // The tail of array_rshift: a new element 0, if any, and the renumbering of the rest.
    method ShiftUp(n: int, v: Value)
      requires Ok() && n > 0 && (v.Some? && entries != [] ==> entries[0].ind + n > 0)
      requires v.None? ==> entries != []
      modifies this, ring
      ensures Ok() && entries == Rshift(old(entries), n, v)
      ensures forall e :: e in ring ==> e in old(ring) || fresh(e)
    {
      hide Holds, Sorted, Rshift, RenumberTail, InFrontOf;
      RshiftKeeps(entries, n, v);
      RshiftParts(entries, n, v);
      var ae := head.next;
      assert ring[0].next == ring[1];
      hide Ring;
      if v.Some? {
        AddZero(ae, v);
        if numElements == 1 {
          maxIndex := 0;
        } else {
          RenumberRest(ae, 2, n);
        }
      } else {
        RenumberRest(ae, 1, n);
      }
    }

    method RenumberRest(ae: Element, ghost p: nat, n: int)
      requires Ring(ring) && Holds(ring, entries) && 0 < p < |ring| && ring[p] == ae && ring[0] == head &&
               head.ind == -1
      modifies this`entries, this`maxIndex, ring
      ensures Ring(ring) && Holds(ring, entries) && head.ind == -1 && maxIndex == Max(entries)
      ensures entries == RenumberTail(old(entries), p - 1, n)
    {
      hide Ring, Holds;
      RenumberFrom(ae, p, n);
      maxIndex := LastInd();
    }

    // A new element 0 before the first one, which is yet to be renumbered.
    method AddZero(ae: Element, v: Value)
      requires Ring(ring) && Holds(ring, entries) && ring[0] == head && ring[1] == ae
      modifies this`ring, this`entries, this`numElements, ring
      ensures Ring(ring) && Holds(ring, entries) && ring[0] == head && |ring| > 2 && ring[2] == ae &&
              head.ind == old(head.ind)
      ensures entries == InFrontOf(Entry(0, v), old(entries)) && numElements == old(numElements) + 1
      ensures forall j :: 0 <= j < |ring| ==> ring[j] in old(ring) || fresh(ring[j])
    {
      var nu := new Element(0, v);
      AddBefore(ae, nu, 1);
      numElements := numElements + 1;
    }

    // The element behind the first n, or the head.
    method Skip(n: int) returns (first: Element, ae: Element)
      requires Ok() && entries != [] && n > 0
      ensures first == ring[1] && ae == ring[if n < |entries| then n + 1 else |ring| - 1]
      ensures |ring| == |entries| + 2 && ring[|ring| - 1] == head
      ensures ae == head <==> n >= |entries|
    {
      hide Sorted;
      assert ring[0].next == ring[1];
      first := head.next;
      ae := first;
      var i := 0;
      while ae != head && i < n
        invariant 0 <= i <= n && i + 1 < |ring| && ring[i + 1] == ae
        decreases n - i
      {
        ae, i := ae.next, i + 1;
      }
    }

    // Shifting out everything; last is the last element.
    method CutAll() returns (r: Element, ghost chain: seq<Element>)
      requires Ok() && entries != []
      modifies this, ring
      ensures Ok() && entries == [] && ring == [head, head]
      ensures chain == old(ring[1..|ring| - 1]) && r == chain[0] && Chained(chain, old(entries))
    {
      r := head.next;
      chain := ring[1..|ring| - 1];
      var ae := r;
      ghost var p := 1;
      while ae.next != head
        invariant 0 < p < |ring| - 1 && ring[p] == ae
        decreases |ring| - p
      {
        ae, p := ae.next, p + 1;
      }
      ae.next := null;
      head.next, head.prev := head, head;
      maxIndex, numElements := -1, 0;
      ring, entries := [head, head], [];
    }

    // Shifting out the first n elements, up to ae.
    method CutFirst(ae: Element, n: int) returns (ghost chain: seq<Element>)
      requires Ok() && 0 < n < |entries| && ring[n + 1] == ae
      modifies this, ring
      ensures Ok() && entries == Retained(old(entries), n)
      ensures |chain| == n && chain[0] == old(ring[1]) && Chained(chain, Ahead(old(entries), n))
      ensures forall e :: e in ring ==> e in old(ring)
      ensures forall e :: e in chain ==> e in old(ring) && e !in ring
    {
      hide Sorted, Retained, RenumberTail, Behind, Ahead, Ring, Holds, Chained;
      RetainedIs(entries, n);
      chain := Split(ae, n);
      RenumberBeside(ae, -n, chain, Ahead(old(entries), n));
      numElements := numElements - n;
    }

    // The chain c is left alone.
    method RenumberBeside(ae: Element, n: int, ghost c: seq<Element>, ghost s: seq<Entry>)
      requires Ring(ring) && Holds(ring, entries) && ring[1] == ae && ring[0] == head && head.ind == -1
      requires Chained(c, s) && forall e :: e in c ==> e !in ring
      modifies this`entries, this`maxIndex, ring
      ensures Ring(ring) && Holds(ring, entries) && head.ind == -1 && maxIndex == Max(entries)
      ensures entries == RenumberTail(old(entries), 0, n)
      ensures Chained(c, s)
    {
      hide RenumberTail, Max, Holds;
      assert |ring| >= 2;
      assert forall j :: 0 <= j < |c| ==> c[j] !in ring;
      hide Ring;
      RenumberRest(ae, 1, n);
    }

    static lemma RingFrom(r: seq<Element>, n: nat)
      requires n + 1 < |r| - 1 && r[0] == r[|r| - 1]
      requires forall j, k :: 0 <= j < k < |r| - 1 ==> r[j] != r[k]
      requires forall j {:trigger r[j].next} :: n < j < |r| - 1 ==> r[j].next == r[j + 1]
      requires forall j {:trigger r[j].prev} :: n + 1 < j < |r| ==> r[j].prev == r[j - 1]
      requires r[0].next == r[n + 1] && r[n + 1].prev == r[0]
      ensures Ring([r[0]] + r[n + 1..])
    {
    }

    // The list is cut in two before ae.
    method Split(ae: Element, n: int) returns (ghost chain: seq<Element>)
      requires Ring(ring) && Holds(ring, entries) && ring[0] == head && 0 < n < |entries| && ring[n + 1] == ae
      modifies this`ring, this`entries, ring
      ensures Ring(ring) && Holds(ring, entries) && head.ind == old(head.ind)
      ensures forall j :: 0 <= j < |ring| ==> ring[j] in old(ring)
      ensures |ring| >= 2 && ring[1] == ae && ring[0] == head
      ensures entries == Behind(old(entries), n) && |chain| == n && chain[0] == old(ring[1])
      ensures Chained(chain, Ahead(old(entries), n)) && forall e :: e in chain ==> e in old(ring) && e !in ring
    {
      hide Ring, Chained;
      DistinctBefore(ring, n);
      Unchain(ae, n);
      chain := ring[1..n + 1];
      ChainedFront(ring, entries, n);
      ring, entries := [head] + ring[n + 1..], entries[n..];
    }

    method Unchain(ae: Element, n: int)
      requires Ring(ring) && ring[0] == head && 0 < n < |ring| - 2 && ring[n + 1] == ae
      modifies ring
      ensures Ring([head] + ring[n + 1..])
      ensures forall j {:trigger ring[j].next} :: 0 < j <= n ==> ring[j].next == if j == n then null else ring[j + 1]
      ensures forall e :: e in ring ==> e.ind == old(e.ind) && e.value == old(e.value)
    {
      ae.prev.next := null;
      head.next := ae;
      ae.prev := head;
      RingFrom(ring, n);
    }

    static lemma ChainedFront(r: seq<Element>, s: seq<Entry>, n: nat)
      requires Holds(r, s) && n <= |s|
      requires forall j {:trigger r[j].next} :: 0 < j <= n ==> r[j].next == if j == n then null else r[j + 1]
      ensures Chained(r[1..n + 1], s[..n])
    {
    }

    static lemma DistinctBefore(r: seq<Element>, n: nat)
      requires Ring(r) && n + 1 < |r| - 1
      ensures r[|r| - 1] == r[0]
      ensures forall j :: 0 < j <= n ==> r[j] !in [r[0]] + r[n + 1..]
    {
    }
  }

  // No element is in both lists.
  ghost predicate Apart(a: SparseArray, b: SparseArray)
    reads a, b
  {
    forall e :: e in a.ring ==> e !in b.ring
  }

  // The statics of array.c.
  class Store {
    var lastarray: SparseArray?
    var lastref: Element?
    ghost var arrays: set<SparseArray>

    constructor ()
      ensures Valid() && arrays == {}
    {
      lastarray, lastref, arrays := null, null, {};
    }

    // Every array is in order, shares nothing with the others, and the cached reference is
    // an element of the cached array.
    ghost predicate Valid()
      reads this, arrays, set a: SparseArray, j | a in arrays && 0 <= j < |a.ring| :: a.ring[j]
    {
      && (forall a :: a in arrays ==> a.Ok())
      && (forall a, b :: a in arrays && b in arrays && a != b ==> Apart(a, b))
      && CacheOk()
    }

    ghost predicate CacheOk()
      reads this, arrays
    {
      if lastarray == null then lastref == null
      else lastarray in arrays && lastref != null && Live(lastarray, lastref)
    }

    // e is an element of a, not its head.
    static ghost predicate Live(a: SparseArray, e: Element)
      reads a
    {
      exists p :: 0 < p < |a.ring| - 1 && a.ring[p] == e
    }

    // e is in no list.
    ghost predicate Loose(e: Element)
      reads this, arrays
    {
      forall b: SparseArray :: b in arrays ==> e !in b.ring
    }

    // The other arrays have kept their contents and their elements.
    twostate predicate Others(a: SparseArray)
      reads this, arrays
    {
      && arrays == old(arrays)
      && forall b: SparseArray :: b in arrays && b != a ==> b.entries == old(b.entries) && b.ring == old(b.ring)
    }

    // a has no elements but old and new ones.
    twostate predicate Within(a: SparseArray)
      reads a
    {
      forall j :: 0 <= j < |a.ring| ==> a.ring[j] in old(a.ring) || fresh(a.ring[j])
    }

    lemma Mine(a: SparseArray)
      requires Valid() && a in arrays
      ensures a.Ok() && CacheOk() && forall b: SparseArray :: b in arrays && b != a ==> Apart(b, a)
    {
    }

    // All that was written is a and its list.
    twostate lemma Undisturbed(a: SparseArray)
      requires old(Valid()) && a in arrays && arrays == old(arrays)
      requires a.Ok() && CacheOk()
      requires forall e :: e in a.ring ==> e in old(a.ring) || fresh(e) || old(Loose(e))
      requires forall b: SparseArray :: b in arrays && b != a ==> unchanged(b)
      requires forall b: SparseArray, e: Element :: b in arrays && b != a && e in old(b.ring) ==> unchanged(e)
      ensures Valid() && Others(a)
    {
      forall b: SparseArray | b in arrays && b != a ensures b.Ok() && Apart(a, b) && Apart(b, a) {
        assert old(Apart(a, b)) && old(Apart(b, a)) && old(b.Ok());
        assert forall j :: 0 <= j < |b.ring| ==> b.ring[j] in old(b.ring);
      }
      forall b: SparseArray, c: SparseArray | b in arrays && c in arrays && b != c && b != a && c != a
        ensures Apart(b, c) {
        assert old(Apart(b, c));
      }
    }

    // SET_LASTREF and INVALIDATE_LASTREF.
    method SetLastref(a: SparseArray, e: Element)
      modifies this`lastarray, this`lastref
      ensures lastarray == a && lastref == e
    {
      lastarray, lastref := a, e;
    }

    method InvalidateLastref(a: SparseArray)
      modifies this`lastarray, this`lastref
      ensures if old(lastarray) == a then lastarray == null && lastref == null else unchanged(this)
    {
      if a == lastarray {
        lastarray, lastref := null, null;
      }
    }

    // LASTREF_START: the cached element if it is one of a's and not behind i, or the first.
    method LastrefStart(a: SparseArray, i: int) returns (ae: Element, ghost p: nat)
      requires a in arrays && a.Ok() && CacheOk()
      ensures 0 < p < |a.ring| && a.ring[p] == ae
      ensures p - 1 <= Rank(a.entries, i)
    {
      if lastarray != null && a == lastarray && i >= lastref.ind {
        ae := lastref;
        p :| 0 < p < |a.ring| - 1 && a.ring[p] == lastref;
        assert a.entries[p - 1].ind == a.ring[p].ind;
      } else {
        ae, p := a.head.next, 1;
        assert a.ring[0].next == a.ring[1];
      }
    }

    // array_insert.
    method Insert(a: SparseArray, i: int, v: Value) returns (status: int)
      requires Valid() && a in arrays
      modifies this`lastarray, this`lastref, a, a.ring
      ensures Valid() && Others(a) && Within(a)
      ensures a.entries == ArrayModel.Insert(old(a.entries), i, v)
      ensures status == if old(a.entries) == [] && i < 0 then -1 else 0
    {
      hide Rank, Valid;
      Mine(a);
      var nu := new Element(i, v);
      if i > a.maxIndex {
        Append(a, nu);
        return 0;
      }
      var ae, p := LastrefStart(a, i);
      while ae != a.head
        invariant 0 < p < |a.ring| && a.ring[p] == ae && p - 1 <= Rank(a.entries, i)
        decreases |a.ring| - p
      {
        if ae.ind == i {
          Replace(a, ae, p, v);
          return 0;
        } else if ae.ind > i {
          PutBefore(a, ae, p, nu);
          return 0;
        }
        ae, p := ae.next, p + 1;
      }
      InvalidateLastref(a);
      Undisturbed(a);
      status := -1;
    }

    // A new last element.
    method Append(a: SparseArray, nu: Element)
      requires Valid() && a in arrays && Loose(nu) && nu.ind > a.maxIndex
      modifies this`lastarray, this`lastref, a, a.ring, nu
      ensures forall j :: 0 <= j < |a.ring| ==> a.ring[j] in old(a.ring) || a.ring[j] == nu
      ensures Valid() && Others(a) && a.entries == ArrayModel.Insert(old(a.entries), old(nu.ind), old(nu.value))
    {
      hide Rank, ArrayModel.Insert, Valid;
      Mine(a);
      InsertLast(a.entries, nu.ind, nu.value);
      a.AddLast(nu);
      a.maxIndex, a.numElements := nu.ind, a.numElements + 1;
      SetLastref(a, nu);
      Undisturbed(a);
    }

    // A new element before ae, the first one behind its place.
    method PutBefore(a: SparseArray, ae: Element, ghost p: nat, nu: Element)
      requires Valid() && a in arrays && Loose(nu)
      requires 0 < p < |a.ring| - 1 && a.ring[p] == ae && ae.ind > nu.ind && p - 1 <= Rank(a.entries, nu.ind)
      modifies this`lastarray, this`lastref, a, a.ring, nu
      ensures forall j :: 0 <= j < |a.ring| ==> a.ring[j] in old(a.ring) || a.ring[j] == nu
      ensures Valid() && Others(a) && a.entries == ArrayModel.Insert(old(a.entries), old(nu.ind), old(nu.value))
    {
      hide Rank, ArrayModel.Insert, Valid;
      Mine(a);
      InsertBefore(a.entries, nu.ind, nu.value, p - 1);
      a.AddBefore(ae, nu, p);
      a.numElements := a.numElements + 1;
      SetLastref(a, nu);
      assert a.ring[p] == nu;
      Undisturbed(a);
    }

    // A new value for ae.
    method Replace(a: SparseArray, ae: Element, ghost p: nat, v: Value)
      requires Valid() && a in arrays
      requires 0 < p < |a.ring| - 1 && a.ring[p] == ae
      modifies this`lastarray, this`lastref, a, a.ring
      ensures Valid() && Others(a) && a.ring == old(a.ring)
      ensures a.entries == ArrayModel.Insert(old(a.entries), old(ae.ind), v)
    {
      hide Rank, ArrayModel.Insert, Valid;
      Mine(a);
      InsertAgain(a.entries, p - 1, v);
      ae.value := v;
      a.entries := a.entries[p - 1 := Entry(ae.ind, v)];
      SetLastref(a, ae);
      Undisturbed(a);
    }

    // array_remove; the caller gets the element.
    method Remove(a: SparseArray, i: int) returns (r: Element?)
      requires Valid() && a in arrays
      modifies this`lastarray, this`lastref, a, a.ring
      ensures Valid() && Others(a) && Within(a)
      ensures a.entries == ArrayModel.Remove(old(a.entries), i)
      ensures r != null <==> Has(old(a.entries), i)
      ensures r != null ==> r.ind == i && r.value == ArrayModel.Reference(old(a.entries), i) && Loose(r)
    {
      hide Rank, Valid;
      Mine(a);
      if a.numElements == 0 {
        return null;
      }
      var ae, p := LastrefStart(a, i);
      while ae != a.head
        invariant 0 < p < |a.ring| && a.ring[p] == ae && (Has(a.entries, i) ==> p - 1 <= Rank(a.entries, i))
        decreases |a.ring| - p
      {
        if ae.ind == i {
          TakeOut(a, ae, p);
          return ae;
        }
        ae, p := ae.next, p + 1;
      }
      return null;
    }

    // The element ae, which was found, comes out.
    method TakeOut(a: SparseArray, ae: Element, ghost p: nat)
      requires Valid() && a in arrays && 0 < p < |a.ring| - 1 && a.ring[p] == ae
      modifies this`lastarray, this`lastref, a, a.ring
      ensures forall j :: 0 <= j < |a.ring| ==> a.ring[j] in old(a.ring)
      ensures Valid() && Others(a) && Loose(ae) && ae.ind == old(ae.ind) && ae.value == old(ae.value)
      ensures Has(old(a.entries), ae.ind) && ae.value == ArrayModel.Reference(old(a.entries), ae.ind)
      ensures a.entries == ArrayModel.Remove(old(a.entries), ae.ind)
    {
      hide Rank, Valid, Has, ArrayModel.Remove, ArrayModel.Reference, SparseArray.Ok;
      Mine(a);
      a.Take(ae, p);
      RefBeside(a, ae, p);
      Undisturbed(a);
    }

    // Afterwards the cache names a neighbour of ae, which was at p.
    method RefBeside(a: SparseArray, ae: Element, ghost p: nat)
      requires a in arrays && a.Ok()
      requires 0 < p < |a.ring| && ae.next == a.ring[p] && ae.prev == a.ring[p - 1]
      requires lastarray != a ==> CacheOk()
      modifies this`lastarray, this`lastref
      ensures CacheOk()
    {
      if ae.next != a.head {
        SetLastref(a, ae.next);
        assert a.ring[p] == ae.next;
      } else if ae.prev != a.head {
        SetLastref(a, ae.prev);
        assert a.ring[p - 1] == ae.prev;
      } else {
        InvalidateLastref(a);
      }
    }

    // array_reference.
    method Reference(a: SparseArray, i: int) returns (v: Value)
      requires Valid() && a in arrays
      modifies this`lastarray, this`lastref
      ensures Valid() && Others(a)
      ensures v == ArrayModel.Reference(a.entries, i)
    {
      hide Rank, Valid;
      Mine(a);
      if a.numElements == 0 || i > a.maxIndex {
        return None;
      }
      var ae, p := LastrefStart(a, i);
      while ae != a.head
        invariant 0 < p < |a.ring| && a.ring[p] == ae && (Has(a.entries, i) ==> p - 1 <= Rank(a.entries, i))
        decreases |a.ring| - p
      {
        if ae.ind == i {
          SetLastref(a, ae);
          Undisturbed(a);
          return ae.value;
        }
        ae, p := ae.next, p + 1;
      }
      lastarray, lastref := null, null;
      Undisturbed(a);
      v := None;
    }

    // array_flush.
    method Flush(a: SparseArray)
      requires Valid() && a in arrays
      modifies this`lastarray, this`lastref, a, a.head
      ensures Valid() && Others(a) && Within(a) && a.entries == [] && a.ring == [a.head, a.head]
    {
      hide Valid;
      Mine(a);
      a.head.next, a.head.prev := a.head, a.head;
      a.maxIndex, a.numElements := -1, 0;
      a.ring, a.entries := [a.head, a.head], [];
      InvalidateLastref(a);
      Undisturbed(a);
    }

    // array_create.
    method Create() returns (a: SparseArray)
      requires Valid()
      modifies this`arrays
      ensures fresh(a) && fresh(a.head) && Valid() && a.entries == [] && arrays == old(arrays) + {a}
      ensures forall b :: b in old(arrays) ==> b.entries == old(b.entries)
    {
      a := new SparseArray();
      arrays := arrays + {a};
    }

    static lemma NoChain()
      ensures Chained([], [])
    {
    }

    // array_shift: the elements shifted out, unless they are disposed of.
    method Shift(a: SparseArray, n: int, dispose: bool) returns (r: Element?, ghost chain: seq<Element>)
      requires Valid() && a in arrays
      modifies this`lastarray, this`lastref, a, a.ring
      ensures Valid() && Others(a) && Within(a)
      ensures a.entries == ArrayModel.Shift(old(a.entries), n)
      ensures r == if chain == [] then null else chain[0]
      ensures if dispose || n <= 0 then chain == []
              else Chained(chain, if n >= |old(a.entries)| then old(a.entries) else Ahead(old(a.entries), n))
    {
      hide Valid, Ring, Holds, Chained, Ahead, Sorted;
      r, chain := null, [];
      Mine(a);
      if a.numElements == 0 || n <= 0 {
        NoChain();
        return;
      }
      InvalidateLastref(a);
      var ae;
      r, ae := a.Skip(n);
      if ae == a.head {
        if dispose {
          Undisturbed(a);
          Flush(a);
          return null, [];
        }
        r, chain := a.CutAll();
        Undisturbed(a);
        return;
      }
      RetainedIsShift(a.entries, n);
      chain := a.CutFirst(ae, n);
      Undisturbed(a);
      if dispose {
        return null, [];
      }
    }

    // array_rshift.
    method Rshift(a: SparseArray, n: int, v: Value) returns (count: int)
      requires Valid() && a in arrays
      requires n > 0 && v.Some? && a.entries != [] ==> a.entries[0].ind + n > 0
      modifies this`lastarray, this`lastref, a, a.ring
      ensures Valid() && Others(a) && Within(a)
      ensures a.entries == ArrayModel.Rshift(old(a.entries), n, v) && count == |a.entries|
    {
      hide Valid;
      Mine(a);
      if a.numElements == 0 && v.None? {
        return 0;
      } else if n <= 0 {
        return a.numElements;
      }
      var first := a.numElements == 0;
      a.ShiftUp(n, v);
      if !first {
        InvalidateLastref(a);
      }
      Undisturbed(a);
      count := a.numElements;
    }

    // array_copy.
    method Copy(a: SparseArray) returns (b: SparseArray)
      requires Valid() && a in arrays
      modifies this`arrays
      ensures fresh(b) && Valid() && arrays == old(arrays) + {b} && b.entries == a.entries
      ensures forall j :: 0 <= j < |b.ring| ==> fresh(b.ring[j])
    {
      hide Ring, Holds, Sorted;
      b := CopyOf(a);
      arrays := arrays + {b};
    }

    // Its loop.
    method CopyOf(a: SparseArray) returns (b: SparseArray)
      requires a.Ok()
      ensures fresh(b) && b.Ok() && b.entries == a.entries && forall j :: 0 <= j < |b.ring| ==> fresh(b.ring[j])
    {
      hide Sorted, Ring;
      b := new SparseArray();
      b.maxIndex, b.numElements := a.maxIndex, a.numElements;
      var ae := a.head.next;
      ghost var q := 1;
      RingNext(a.ring, 0);
      while ae != a.head
        invariant 0 < q < |a.ring| && a.ring[q] == ae && (q == |a.ring| - 1 <==> ae == a.head)
        invariant b.maxIndex == a.maxIndex && b.numElements == a.numElements
        invariant Ring(b.ring) && Holds(b.ring, b.entries) && b.ring[0] == b.head && b.head.ind == -1
        invariant b.entries == a.entries[..q - 1] && forall j :: 0 <= j < |b.ring| ==> fresh(b.ring[j])
        decreases |a.ring| - q
      {
        var nu := new Element(ae.ind, ae.value);
        b.AddLast(nu);
        RingNext(a.ring, q);
        ae, q := ae.next, q + 1;
      }
      assert b.entries == a.entries;
    }
  }
}
