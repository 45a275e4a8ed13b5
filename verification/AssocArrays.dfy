/** Associative arrays, assoc.c: maps kept in hash tables. */
module AssocArrays {
  import opened Options
  import opened ArrayModel
  import opened HashCode
  import opened HashTables

  // assoc_insert.
  method Insert(h: HashTable, key: string, value: Value)
    requires h.Valid()
    modifies h`nentries, h`chains, h`contents, h.buckets, h.Nodes()`timesFound, h.Nodes()`data
    ensures h.Valid() && h.contents == old(h.contents)[key := value]
  {
    var _ := Replace(h, key, value);
  }

  // assoc_replace, which gives back the old value.
  method Replace(h: HashTable, key: string, value: Value) returns (t: Value)
    requires h.Valid()
    modifies h`nentries, h`chains, h`contents, h.buckets, h.Nodes()`timesFound, h.Nodes()`data
    ensures h.Valid() && h.contents == old(h.contents)[key := value]
    ensures t == if key in old(h.contents) then old(h.contents)[key] else None
  {
    hide HashTable.Valid, AllNodes;
    var b := h.Search(key, true);
    NodeHolds(h, b, key);
    t := b.data;
    h.Store(b, value);
  }

  lemma NodeHolds(h: HashTable, b: BucketContents, key: string)
    requires h.Valid() && h.IsNode(b, key)
    ensures b.key == key && key in h.contents && h.contents[key] == b.data
  {
    hide Hash, Spot;
  }

  // assoc_remove.
  method Remove(h: HashTable, key: string)
    requires h.Valid()
    modifies h`nentries, h`chains, h`contents, h.buckets, h.Nodes()`next
    ensures h.Valid() && h.contents == old(h.contents) - {key}
  {
    var _ := h.Remove(key);
  }

  // assoc_reference.
  method Reference(h: HashTable, key: string) returns (v: Value)
    requires h.Valid()
    modifies h`nentries, h`chains, h`contents, h.buckets, h.Nodes()`timesFound
    ensures h.Valid() && h.contents == old(h.contents)
    ensures v == if key in h.contents then h.contents[key] else None
  {
    hide HashTable.Valid, AllNodes;
    var b := h.Search(key, false);
    if b == null {
      return None;
    }
    NodeHolds(h, b, key);
    v := b.data;
  }

  // ---- lists of keys and values ----

  // All nodes, bucket by bucket.
  ghost function Flat(chains: seq<seq<BucketContents>>): seq<BucketContents> {
    if chains == [] then [] else Flat(chains[..|chains| - 1]) + chains[|chains| - 1]
  }

  ghost function WordOf(b: BucketContents, keys: bool): Value
    reads b`data
  {
    if keys then Some(b.key) else b.data
  }

  ghost function Words(c: seq<BucketContents>, keys: bool): (w: seq<Value>)
    reads c`data
    ensures |w| == |c| && forall j :: 0 <= j < |c| ==> w[j] == WordOf(c[j], keys)
  {
    if c == [] then [] else Words(c[..|c| - 1], keys) + [WordOf(c[|c| - 1], keys)]
  }

  function Reversed(s: seq<Value>): (r: seq<Value>)
    ensures |r| == |s| && forall j :: 0 <= j < |s| ==> r[j] == s[|s| - 1 - j]
  {
    if s == [] then [] else Reversed(s[1..]) + [s[0]]
  }

  // assoc_to_word_list_internal: every word goes in front, and the list is turned round.
  method WordList(h: HashTable, keys: bool) returns (list: seq<Value>)
    requires h.Valid()
    ensures list == old(Words(Flat(h.chains), keys))
  {
    hide Hash, Bucket, Spot, Placed, Holds, Linked, Words, Flat, Reversed;
    list := [];
    forall i | 0 <= i < |h.chains|
      ensures Words(Flat(h.chains[..i + 1]), keys) == Words(Flat(h.chains[..i]), keys) + Words(h.chains[i], keys)
    {
      OneChain(h.chains, i, keys);
    }
    NothingYet(h.chains, keys);
    if h.nentries == 0 {
      ListsPairUp(h);
      assert Flat(h.chains) == [];
      return;
    }
    for i := 0 to h.buckets.Length
      invariant Reversed(list) == old(Words(Flat(h.chains[..i]), keys))
    {
      list := ChainWords(h.buckets[i], h.chains[i], keys, list);
    }
    assert h.chains[..h.buckets.Length] == h.chains;
    list := Reversed(list);
  }

  lemma NothingYet(chains: seq<seq<BucketContents>>, keys: bool)
    ensures Reversed([]) == Words(Flat(chains[..0]), keys) == Words([], keys) == []
  {
  }

  lemma OneChain(chains: seq<seq<BucketContents>>, i: nat, keys: bool)
    requires i < |chains|
    ensures Words(Flat(chains[..i + 1]), keys) == Words(Flat(chains[..i]), keys) + Words(chains[i], keys)
  {
    assert chains[..i + 1][..i] == chains[..i];
    WordsOfBoth(Flat(chains[..i]), chains[i], keys);
  }

  // One bucket.
  method ChainWords(ba: BucketContents?, ghost c: seq<BucketContents>, keys: bool, list0: seq<Value>)
    returns (list: seq<Value>)
    requires Linked(ba, c)
    ensures Reversed(list) == Reversed(list0) + old(Words(c, keys))
  {
    list := list0;
    var b := ba;
    ghost var p := 0;
    assert c[..0] == [];
    while b != null
      invariant p <= |c| && b == (if p < |c| then c[p] else null)
      invariant Reversed(list) == Reversed(list0) + Words(c[..p], keys)
      decreases |c| - p
    {
      InFront(if keys then Some(b.key) else b.data, list);
      assert c[..p + 1][..p] == c[..p];
      list := [if keys then Some(b.key) else b.data] + list;
      b, p := b.next, p + 1;
    }
    assert c[..|c|] == c;
  }

  lemma InFront(v: Value, list: seq<Value>)
    ensures Reversed([v] + list) == Reversed(list) + [v]
  {
    assert ([v] + list)[1..] == list;
  }

  lemma WordsOfBoth(c: seq<BucketContents>, c': seq<BucketContents>, keys: bool)
    ensures Words(c + c', keys) == Words(c, keys) + Words(c', keys)
  {
  }

  // What the nodes of the first buckets, of n, say about m.
  ghost predicate Listed(c: seq<BucketContents>, buckets: nat, n: nat, m: map<string, Value>)
    requires n > 0
    reads c`data
  {
    && (forall j {:trigger c[j]} :: 0 <= j < |c| ==>
          c[j].key in m && m[c[j].key] == c[j].data && Bucket(Hash(c[j].key), n) < buckets)
    && (forall j, k {:trigger c[j], c[k]} :: 0 <= j < k < |c| ==> c[j].key != c[k].key)
    && (forall key :: key in m && Bucket(Hash(key), n) < buckets ==> Spot(c, key) < |c|)
  }

  lemma {:induction false} FlatLists(chains: seq<seq<BucketContents>>, n: nat, m: map<string, Value>)
    requires 0 < n && |chains| <= n
    requires forall i {:trigger chains[i]} :: 0 <= i < |chains| ==> Placed(chains[i], i, n) && Holds(chains[i], i, n, m)
    ensures Listed(Flat(chains), |chains|, n, m)
  {
    hide Hash, Bucket, Spot;
    if chains != [] {
      var i := |chains| - 1;
      FlatLists(chains[..i], n, m);
      OneMore(Flat(chains[..i]), chains[i], i, n, m);
    }
  }

  lemma OneMore(f: seq<BucketContents>, c: seq<BucketContents>, i: nat, n: nat, m: map<string, Value>)
    requires n > 0 && Listed(f, i, n, m) && Placed(c, i, n) && Holds(c, i, n, m)
    ensures Listed(f + c, i + 1, n, m)
  {
    hide Hash, Bucket, Spot;
    var g := f + c;
    forall key | key in m && Bucket(Hash(key), n) < i + 1 ensures Spot(g, key) < |g| {
      if Bucket(Hash(key), n) < i {
        assert g[Spot(f, key)] == f[Spot(f, key)];
        SpotFound(g, key, Spot(f, key));
      } else {
        assert g[|f| + Spot(c, key)] == c[Spot(c, key)];
        SpotFound(g, key, |f| + Spot(c, key));
      }
    }
  }

  // The list of keys has each key once, and the list of values has its value at the same
  // place.
  lemma ListsPairUp(h: HashTable)
    requires h.Valid()
    ensures |Flat(h.chains)| == h.nentries == |h.contents|
    ensures var ks, vs := Words(Flat(h.chains), true), Words(Flat(h.chains), false);
            && |ks| == |vs| == |h.contents|
            && (forall j :: 0 <= j < |ks| ==>
                  ks[j].Some? && ks[j].value in h.contents && vs[j] == h.contents[ks[j].value])
            && (forall j, k :: 0 <= j < k < |ks| ==> ks[j] != ks[k])
            && (forall key :: key in h.contents ==> Some(key) in ks)
  {
    hide Hash, Spot, Placed, Holds, Linked;
    var c := Flat(h.chains);
    FlatLists(h.chains, |h.chains|, h.contents);
    var ks := Words(c, true);
    forall key | key in h.contents ensures Some(key) in ks && exists j :: 0 <= j < |c| && c[j].key == key {
      assert c[Spot(c, key)].key == key;
      assert ks[Spot(c, key)] == Some(key);
    }
    hide Flat, Words;
    KeyCount(c);
    assert h.contents.Keys == KeysOf(c);
  }

  ghost function KeysOf(c: seq<BucketContents>): set<string> {
    set j | 0 <= j < |c| :: c[j].key
  }

  lemma {:induction false} KeyCount(c: seq<BucketContents>)
    requires forall j, k :: 0 <= j < k < |c| ==> c[j].key != c[k].key
    ensures |KeysOf(c)| == |c|
  {
    if c != [] {
      var n := |c| - 1;
      KeyCount(c[..n]);
      assert KeysOf(c) == KeysOf(c[..n]) + {c[n].key};
    }
  }
}
