/** The hash tables of hashlib.c: an array of chains, changed in place. */
module HashTables {
  import opened Options
  import opened ArrayModel
  import opened HashCode

  class BucketContents {
    var next: BucketContents?
    const key: string
    var data: Value
    const khash: nat
    var timesFound: int

    constructor (key: string, khash: nat, next: BucketContents?)
      ensures this.key == key && this.khash == khash && this.next == next && data == None && timesFound == 0
    {
      this.key, this.khash, this.next, data, timesFound := key, khash, next, None, 0;
    }
  }

  // h is the chain of the nodes c.
  ghost predicate Linked(h: BucketContents?, c: seq<BucketContents>)
    reads c`next
  {
    && h == (if c == [] then null else c[0])
    && forall j {:trigger c[j].next} :: 0 <= j < |c| ==> c[j].next == if j + 1 < |c| then c[j + 1] else null
  }

  // The chain of bucket i, of n: keys that hash to i, each once, with its hash beside it.
  ghost predicate Placed(c: seq<BucketContents>, i: int, n: nat) {
    && n > 0
    && (forall j {:trigger c[j]} :: 0 <= j < |c| ==> c[j].khash == Hash(c[j].key) && Bucket(c[j].khash, n) == i)
    && (forall j, k {:trigger c[j], c[k]} :: 0 <= j < k < |c| ==> c[j].key != c[k].key)
  }

  // Where key is in a chain.
  ghost function Spot(c: seq<BucketContents>, key: string): (p: nat)
    ensures p <= |c| && (p < |c| ==> c[p].key == key) && forall j :: 0 <= j < p ==> c[j].key != key
  {
    if c == [] || c[0].key == key then 0 else 1 + Spot(c[1..], key)
  }

  // The nodes of c hold what m says, all of it that belongs in bucket i.
  ghost predicate Holds(c: seq<BucketContents>, i: int, n: nat, m: map<string, Value>)
    requires n > 0
    reads c`data
  {
    && (forall j {:trigger c[j]} :: 0 <= j < |c| ==> c[j].key in m && m[c[j].key] == c[j].data)
    && (forall key :: key in m && Bucket(Hash(key), n) == i ==> Spot(c, key) < |c|)
  }

  lemma SpotIs(c: seq<BucketContents>, key: string, p: nat)
    requires p < |c| && c[p].key == key && forall j :: 0 <= j < p ==> c[j].key != key
    ensures Spot(c, key) == p
  {
    if p > 0 {
      SpotIs(c[1..], key, p - 1);
    }
  }

  lemma SpotFound(c: seq<BucketContents>, key: string, p: nat)
    requires p < |c| && c[p].key == key
    ensures Spot(c, key) <= p
  {
    hide Spot;
  }

  ghost function AllNodes(chains: seq<seq<BucketContents>>): set<BucketContents> {
    set i, j {:trigger chains[i][j]} | 0 <= i < |chains| && 0 <= j < |chains[i]| :: chains[i][j]
  }

  lemma NodesFront(chains: seq<seq<BucketContents>>, i: nat, b: BucketContents)
    requires i < |chains|
    ensures AllNodes(chains[i := [b] + chains[i]]) == AllNodes(chains) + {b}
  {
    var chains' := chains[i := [b] + chains[i]];
    assert chains'[i][0] == b;
    forall x | x in AllNodes(chains) ensures x in AllNodes(chains') {
      var k, j :| 0 <= k < |chains| && 0 <= j < |chains[k]| && x == chains[k][j];
      assert x == chains'[k][if k == i then j + 1 else j];
    }
    forall x | x in AllNodes(chains') && x != b ensures x in AllNodes(chains) {
      var k, j :| 0 <= k < |chains'| && 0 <= j < |chains'[k]| && x == chains'[k][j];
      assert x == chains[k][if k == i then j - 1 else j];
    }
  }

  // A node for a new key goes to the front.
  lemma Front(b: BucketContents, h: BucketContents?, c: seq<BucketContents>, i: int, n: nat, m: map<string, Value>)
    requires Linked(h, c) && Placed(c, i, n) && Holds(c, i, n, m)
    requires b.key !in m && b.khash == Hash(b.key) && Bucket(b.khash, n) == i && b.data == None && b.next == h
    ensures Linked(b, [b] + c) && Placed([b] + c, i, n) && Holds([b] + c, i, n, m[b.key := None])
    ensures Spot([b] + c, b.key) == 0
  {
    hide Hash, Bucket;
    var c' := [b] + c;
    forall key | key in m[b.key := None] && Bucket(Hash(key), n) == i ensures Spot(c', key) < |c'| {
      if key == b.key {
        SpotIs(c', key, 0);
      } else {
        var p := Spot(c, key);
        assert c'[p + 1] == c[p];
        SpotFound(c', key, p + 1);
      }
    }
    SpotIs(c', b.key, 0);
  }

  // The other buckets do not see a key that is none of theirs.
  lemma Elsewhere(c: seq<BucketContents>, i: int, n: nat, m: map<string, Value>, key: string, v: Value)
    requires Placed(c, i, n) && Holds(c, i, n, m) && Bucket(Hash(key), n) != i
    ensures Holds(c, i, n, m[key := v]) && Holds(c, i, n, m - {key})
  {
    hide Hash, Bucket, Spot;
  }

  // A new value in the node at p.
  lemma Changed(c: seq<BucketContents>, i: int, n: nat, m: map<string, Value>, p: nat)
    requires Placed(c, i, n) && p < |c|
    requires forall j {:trigger c[j]} :: 0 <= j < |c| && j != p ==> c[j].key in m && m[c[j].key] == c[j].data
    requires forall key :: key in m && Bucket(Hash(key), n) == i ==> Spot(c, key) < |c|
    ensures Holds(c, i, n, m[c[p].key := c[p].data])
  {
    hide Hash, Bucket;
    SpotFound(c, c[p].key, p);
    hide Spot;
  }

  // The node at p comes out.
  lemma Without(c: seq<BucketContents>, i: int, n: nat, m: map<string, Value>, p: nat)
    requires Placed(c, i, n) && Holds(c, i, n, m) && p < |c|
    ensures Placed(c[..p] + c[p + 1..], i, n) && Holds(c[..p] + c[p + 1..], i, n, m - {c[p].key})
  {
    hide Hash, Bucket, Spot;
    var c' := c[..p] + c[p + 1..];
    assert forall j {:trigger c'[j]} :: 0 <= j < |c'| ==> c'[j] == c[if j < p then j else j + 1];
    StillFound(c, i, n, m, p);
  }

  lemma StillFound(c: seq<BucketContents>, i: int, n: nat, m: map<string, Value>, p: nat)
    requires n > 0 && Holds(c, i, n, m) && p < |c|
    ensures forall key :: key in m - {c[p].key} && Bucket(Hash(key), n) == i ==>
              Spot(c[..p] + c[p + 1..], key) < |c[..p] + c[p + 1..]|
  {
    hide Hash, Bucket;
    var c' := c[..p] + c[p + 1..];
    forall key | key in m - {c[p].key} && Bucket(Hash(key), n) == i ensures Spot(c', key) < |c'| {
      var q := Spot(c, key);
      assert c'[if q < p then q else q - 1] == c[q];
      SpotFound(c', key, if q < p then q else q - 1);
    }
  }

  lemma NodesWithout(chains: seq<seq<BucketContents>>, i: nat, p: nat)
    requires i < |chains| && p < |chains[i]|
    ensures AllNodes(chains[i := chains[i][..p] + chains[i][p + 1..]]) <= AllNodes(chains)
  {
    var chains' := chains[i := chains[i][..p] + chains[i][p + 1..]];
    forall x | x in AllNodes(chains') ensures x in AllNodes(chains) {
      var k, j :| 0 <= k < |chains'| && 0 <= j < |chains'[k]| && x == chains'[k][j];
      assert x == chains[k][if k == i && j >= p then j + 1 else j];
    }
  }

  // Every node is in one place only.
  lemma OnePlace(chains: seq<seq<BucketContents>>, i: nat, p: nat, k: nat, j: nat)
    requires i < |chains| && p < |chains[i]| && k < |chains| && j < |chains[k]|
    requires Placed(chains[i], i, |chains|) && Placed(chains[k], k, |chains|) && chains[i][p] == chains[k][j]
    ensures i == k && p == j
  {
    hide Hash, Bucket;
  }

  lemma Absent(c: seq<BucketContents>, i: int, n: nat, m: map<string, Value>, key: string)
    requires n > 0 && Holds(c, i, n, m) && Bucket(Hash(key), n) == i && forall j :: 0 <= j < |c| ==> c[j].key != key
    ensures key !in m
  {
    hide Hash, Bucket;
  }

  lemma Key(c: seq<BucketContents>, i: int, n: nat, m: map<string, Value>, p: nat)
    requires Placed(c, i, n) && Holds(c, i, n, m) && p < |c|
    ensures Bucket(Hash(c[p].key), n) == i
    ensures c[p].key in m && m[c[p].key] == c[p].data && |m - {c[p].key}| == |m| - 1
  {
    assert m.Keys == (m - {c[p].key}).Keys + {c[p].key};
  }

  lemma NoKeys(c: seq<BucketContents>, i: int, n: nat, m: map<string, Value>)
    requires n > 0 && Holds(c, i, n, m) && c != []
    ensures m != map[]
  {
    assert c[0].key in m;
  }

  // A node put in front without a search leaves each key there once exactly if its key is
  // new.
  lemma NoSearch(b: BucketContents, c: seq<BucketContents>, i: int, n: nat)
    requires Placed(c, i, n) && b.khash == Hash(b.key) && Bucket(b.khash, n) == i
    ensures Placed([b] + c, i, n) <==> forall j :: 0 <= j < |c| ==> c[j].key != b.key
  {
    hide Hash, Bucket;
    var c' := [b] + c;
    assert forall j {:trigger c[j]} :: 0 <= j < |c| ==> c'[j + 1] == c[j];
    assert forall j {:trigger c'[j]} :: 0 < j < |c'| ==> c'[j] == c[j - 1];
    assert c'[0] == b;
  }

  lemma InNodes(chains: seq<seq<BucketContents>>, i: nat, p: nat)
    requires i < |chains| && p < |chains[i]|
    ensures chains[i][p] in AllNodes(chains)
  {
  }

  class HashTable {
    const buckets: array<BucketContents?>
    var nentries: int
    ghost var chains: seq<seq<BucketContents>>
    ghost var contents: map<string, Value>

    ghost function Nodes(): set<BucketContents>
      reads this
    {
      AllNodes(chains)
    }

    ghost predicate Valid()
      reads this, buckets, Nodes()`next, Nodes()`data
    {
      && 0 < buckets.Length == |chains|
      && (forall i {:trigger chains[i]} :: 0 <= i < |chains| ==>
            Linked(buckets[i], chains[i]) && Placed(chains[i], i, |chains|) && Holds(chains[i], i, |chains|, contents))
      && nentries == |contents|
    }

    // hash_create.
    constructor (size: nat)
      ensures Valid() && contents == map[] && buckets.Length == (if size == 0 then 64 else size)
      ensures fresh(buckets) && Nodes() == {}
    {
      var n := if size == 0 then 64 else size;
      buckets := new BucketContents?[n](_ => null);
      nentries := 0;
      chains := seq(n, _ => []);
      contents := map[];
    }

    // b is the node of key.
    ghost predicate IsNode(b: BucketContents, key: string)
      reads this
    {
      && |chains| > 0
      && var c := chains[Bucket(Hash(key), |chains|)];
         b.key == key && Spot(c, key) < |c| && c[Spot(c, key)] == b
    }

    // hash_search.
    method Search(key: string, create: bool) returns (b: BucketContents?)
      requires Valid()
      modifies this`nentries, this`chains, this`contents, buckets, Nodes()`timesFound
      ensures Valid()
      ensures b != null <==> key in old(contents) || create
      ensures b != null ==> IsNode(b, key)
      ensures contents == if key in old(contents) || !create then old(contents) else old(contents)[key := None]
      ensures Nodes() == old(Nodes()) + if key in old(contents) || b == null then {} else {b}
      ensures b != null && key !in old(contents) ==> fresh(b) && b.timesFound == 0
      ensures b != null && key in old(contents) ==> b in old(Nodes()) && b.timesFound == old(b.timesFound) + 1
    {
      hide Hash, Bucket, Linked, Placed, Spot, AllNodes;
      if !create && nentries == 0 {
        return null;
      }
      var hv := HashString(key);
      var bucket := Bucket(hv, buckets.Length);
      b := Walk(key, hv, bucket);
      if b != null {
        b.timesFound := b.timesFound + 1;
        return;
      }
      if create {
        b := Add(key, hv, bucket);
      }
    }

    // The walk through a chain.
    method Walk(key: string, hv: nat, bucket: nat) returns (b: BucketContents?)
      requires Valid() && hv == Hash(key) && bucket == Bucket(hv, |chains|)
      ensures b != null <==> key in contents
      ensures b != null ==> IsNode(b, key) && b in Nodes()
    {
      hide Hash, Bucket;
      ghost var c := chains[bucket];
      ghost var p := 0;
      b := buckets[bucket];
      while b != null
        invariant p <= |c| && b == (if p < |c| then c[p] else null)
        invariant forall j :: 0 <= j < p ==> c[j].key != key
        decreases |c| - p
      {
        if hv == b.khash && b.key == key {
          return;
        }
        b, p := b.next, p + 1;
      }
    }

    // A new node at the front of its chain.
    method Add(key: string, hv: nat, bucket: nat) returns (b: BucketContents)
      requires Valid() && hv == Hash(key) && bucket == Bucket(hv, |chains|) && key !in contents
      modifies this`nentries, this`chains, this`contents, buckets
      ensures Valid() && IsNode(b, key) && fresh(b) && b.timesFound == 0
      ensures contents == old(contents)[key := None] && Nodes() == old(Nodes()) + {b}
    {
      hide Hash, Bucket, Linked, Placed, Holds, Spot, AllNodes;
      ghost var n := |chains|;
      b := new BucketContents(key, hv, buckets[bucket]);
      NodesFront(chains, bucket, b);
      Front(b, buckets[bucket], chains[bucket], bucket, n, contents);
      forall i | 0 <= i < n && i != bucket ensures Holds(chains[i], i, n, contents[key := None]) {
        Elsewhere(chains[i], i, n, contents, key, None);
      }
      buckets[bucket] := b;
      nentries := nentries + 1;
      contents := contents[key := None];
      chains := chains[bucket := [b] + chains[bucket]];
    }

    // Data for the node of a key, as the callers of hash_search store it.
    method Store(b: BucketContents, v: Value)
      requires Valid() && IsNode(b, b.key)
      modifies this`contents, b`data
      ensures Valid() && contents == old(contents)[b.key := v] && b.data == v
    {
      hide Hash, Bucket, Linked, AllNodes, Spot;
      ghost var n := |chains|;
      ghost var bucket := Bucket(Hash(b.key), n);
      ghost var p := Spot(chains[bucket], b.key);
      forall i | 0 <= i < n && i != bucket ensures Holds(chains[i], i, n, contents[b.key := v]) {
        Elsewhere(chains[i], i, n, contents, b.key, v);
      }
      b.data := v;
      Changed(chains[bucket], bucket, n, contents, p);
      contents := contents[b.key := v];
    }

    // hash_remove; the caller gets the node.
    method Remove(key: string) returns (b: BucketContents?)
      requires Valid()
      modifies this`nentries, this`chains, this`contents, buckets, Nodes()`next
      ensures Valid() && contents == old(contents) - {key}
      ensures b != null <==> key in old(contents)
      ensures b != null ==> b.key == key && b.data == old(contents)[key] && b in old(Nodes())
      ensures Nodes() <= old(Nodes())
    {
      hide Hash, Bucket, Spot, AllNodes, Holds;
      if nentries == 0 {
        assert contents == map[];
        return null;
      }
      var hv := HashString(key);
      var bucket := Bucket(hv, buckets.Length);
      var prev: BucketContents? := null;
      var temp := buckets[bucket];
      ghost var c, p := chains[bucket], 0;
      while temp != null
        invariant p <= |c| && temp == (if p < |c| then c[p] else null)
        invariant prev == (if p == 0 then null else c[p - 1])
        invariant forall j :: 0 <= j < p ==> c[j].key != key
        decreases |c| - p
      {
        if hv == temp.khash && temp.key == key {
          Unchain(prev, temp, bucket, p);
          return temp;
        }
        prev, temp, p := temp, temp.next, p + 1;
      }
      Absent(c, bucket, |chains|, contents, key);
      assert contents - {key} == contents;
      b := null;
    }

    // The node temp, at p of its chain, is taken out.
    method Unchain(prev: BucketContents?, temp: BucketContents, bucket: nat, ghost p: nat)
      requires Valid() && bucket < |chains| && p < |chains[bucket]| && chains[bucket][p] == temp
      requires prev == if p == 0 then null else chains[bucket][p - 1]
      modifies this`nentries, this`chains, this`contents, buckets, Nodes()`next
      ensures Valid() && contents == old(contents) - {temp.key}
      ensures temp.key in old(contents) && temp.data == old(contents)[temp.key]
      ensures Nodes() <= old(Nodes()) && temp in old(Nodes())
    {
      hide Hash, Bucket, Placed, Spot, AllNodes, Holds, Linked;
      ghost var n := |chains|;
      ghost var c := chains[bucket];
      InNodes(chains, bucket, p);
      NodesWithout(chains, bucket, p);
      Without(c, bucket, n, contents, p);
      Key(c, bucket, n, contents, p);
      forall i | 0 <= i < n && i != bucket ensures Holds(chains[i], i, n, contents - {temp.key}) {
        Elsewhere(chains[i], i, n, contents, temp.key, None);
      }
      Bypass(prev, temp, bucket, p);
      nentries := nentries - 1;
      contents := contents - {temp.key};
      chains := chains[bucket := c[..p] + c[p + 1..]];
    }

    // The link that skips temp.
    method Bypass(prev: BucketContents?, temp: BucketContents, bucket: nat, ghost p: nat)
      requires Valid() && bucket < |chains| && p < |chains[bucket]| && chains[bucket][p] == temp
      requires prev == if p == 0 then null else chains[bucket][p - 1]
      modifies buckets, Nodes()`next
      ensures forall i :: 0 <= i < |chains| && i != bucket ==> Linked(buckets[i], chains[i])
      ensures Linked(buckets[bucket], chains[bucket][..p] + chains[bucket][p + 1..])
    {
      hide Hash, Bucket, Placed, Spot, Holds, AllNodes;
      ghost var c := chains[bucket];
      forall i, j | 0 <= i < |chains| && 0 <= j < |chains[i]| && prev == chains[i][j]
        ensures i == bucket && j == p - 1 {
        OnePlace(chains, bucket, p - 1, i, j);
      }
      if prev != null {
        InNodes(chains, bucket, p - 1);
        prev.next := temp.next;
      } else {
        buckets[bucket] := temp.next;
      }
    }

    // hash_insert: unless told not to search it finds what is there; told so, it needs a
    // key that is not.
    method Insert(key: string, nosrch: bool) returns (b: BucketContents)
      requires Valid() && (nosrch ==> key !in contents)
      modifies this`nentries, this`chains, this`contents, buckets, Nodes()`timesFound
      ensures Valid() && IsNode(b, key)
      ensures contents == if key in old(contents) then old(contents) else old(contents)[key := None]
    {
      hide Hash, Bucket, Linked, Placed, Spot, AllNodes, Holds;
      var item: BucketContents? := null;
      if !nosrch {
        item := Search(key, false);
      }
      if item == null {
        var hv := HashString(key);
        item := Add(key, hv, Bucket(hv, buckets.Length));
      }
      b := item;
    }

    // hash_flush.
    method Flush()
      requires Valid()
      modifies this`nentries, this`chains, this`contents, buckets
      ensures Valid() && contents == map[] && Nodes() == {}
    {
      if nentries == 0 {
        NoNodes();
        return;
      }
      for i := 0 to buckets.Length
        invariant forall k :: 0 <= k < i ==> buckets[k] == null
      {
        buckets[i] := null;
      }
      nentries := 0;
      chains, contents := seq(buckets.Length, _ => []), map[];
    }

    lemma NoNodes()
      requires Valid() && nentries == 0
      ensures contents == map[] && Nodes() == {}
    {
      hide Hash, Bucket, Spot, Placed, Linked, Holds;
      assert contents == map[];
      forall i | 0 <= i < |chains| ensures chains[i] == [] {
        if chains[i] != [] {
          NoKeys(chains[i], i, |chains|, contents);
        }
      }
    }

    // hash_copy, with savestring for the data.
    method Copy() returns (t: HashTable)
      requires Valid()
      ensures fresh(t) && fresh(t.buckets) && fresh(t.Nodes()) && t.Valid() && t.contents == contents
      ensures |t.chains| == |chains| && forall i :: 0 <= i < |chains| ==> SameNodes(chains[i], t.chains[i])
    {
      hide Hash, Bucket, Placed, Spot, Holds, Linked, SameNodes;
      t := new HashTable(buckets.Length);
      ghost var copies := CopyChains(t);
      t.nentries := nentries;
      t.chains, t.contents := copies, contents;
      forall i | 0 <= i < |copies|
        ensures Placed(copies[i], i, |copies|) && Holds(copies[i], i, |copies|, contents)
      {
        SamePlaces(chains[i], copies[i], i, |copies|, contents);
      }
    }

    // Its loop.
    method CopyChains(t: HashTable) returns (ghost copies: seq<seq<BucketContents>>)
      requires Valid() && t.buckets != buckets && t.buckets.Length == buckets.Length
      modifies t.buckets
      ensures |copies| == |chains|
      ensures forall k :: 0 <= k < |copies| ==> Linked(t.buckets[k], copies[k]) && SameNodes(chains[k], copies[k])
      ensures forall k, j {:trigger copies[k][j]} :: 0 <= k < |copies| && 0 <= j < |copies[k]| ==> fresh(copies[k][j])
    {
      hide Hash, Bucket, Placed, Spot, Holds, SameNodes, Linked, AllNodes;
      copies := [];
      for i := 0 to buckets.Length
        invariant |copies| == i
        invariant forall k :: 0 <= k < i ==> Linked(t.buckets[k], copies[k]) && SameNodes(chains[k], copies[k])
        invariant forall k, j {:trigger copies[k][j]} :: 0 <= k < i && 0 <= j < |copies[k]| ==> fresh(copies[k][j])
      {
        ghost var c;
        t.buckets[i], c := CopyBucket(buckets[i], chains[i]);
        copies := copies + [c];
      }
    }
  }

  // copy_bucket_array.
  method CopyBucket(ba: BucketContents?, ghost c: seq<BucketContents>)
    returns (h: BucketContents?, ghost c': seq<BucketContents>)
    requires Linked(ba, c)
    ensures Linked(h, c') && SameNodes(c, c') && forall j :: 0 <= j < |c'| ==> fresh(c'[j])
  {
    hide SameNodes;
    h, c' := null, [];
    NoNodes(c);
    var n: BucketContents? := null;
    var e := ba;
    while e != null
      invariant |c'| <= |c| && e == (if |c'| < |c| then c[|c'|] else null)
      invariant n == (if c' == [] then null else c'[|c'| - 1])
      invariant Linked(h, c') && SameNodes(c[..|c'|], c') && forall j :: 0 <= j < |c'| ==> fresh(c'[j])
      invariant forall j, k :: 0 <= j < k < |c'| ==> c'[j] != c'[k]
      decreases |c| - |c'|
    {
      var m := new BucketContents(e.key, e.khash, null);
      m.data, m.timesFound := e.data, e.timesFound;
      if n == null {
        h := m;
      } else {
        n.next := m;
      }
      OneMoreNode(c, c', m);
      n, c', e := m, c' + [m], e.next;
    }
    assert c[..|c'|] == c;
  }

  // c' has the keys and data of c.
  ghost predicate SameNodes(c: seq<BucketContents>, c': seq<BucketContents>)
    reads c`data, c`timesFound, c'`data, c'`timesFound
  {
    && |c'| == |c|
    && forall j {:trigger c[j]} {:trigger c'[j]} :: 0 <= j < |c| ==>
         && c'[j].key == c[j].key && c'[j].khash == c[j].khash
         && c'[j].data == c[j].data && c'[j].timesFound == c[j].timesFound
  }

  lemma NoNodes(c: seq<BucketContents>)
    ensures SameNodes(c[..0], [])
  {
  }

  lemma OneMoreNode(c: seq<BucketContents>, c': seq<BucketContents>, m: BucketContents)
    requires |c'| < |c| && SameNodes(c[..|c'|], c')
    requires var e := c[|c'|]; m.key == e.key && m.khash == e.khash && m.data == e.data && m.timesFound == e.timesFound
    ensures SameNodes(c[..|c'| + 1], c' + [m])
  {
    var (a, a') := (c[..|c'| + 1], c' + [m]);
    forall j | 0 <= j < |a|
      ensures a'[j].key == a[j].key && a'[j].khash == a[j].khash
      ensures a'[j].data == a[j].data && a'[j].timesFound == a[j].timesFound
    {
      if j < |c'| {
        assert a[j] == c[..|c'|][j] && a'[j] == c'[j];
      }
    }
  }

  lemma SamePlaces(c: seq<BucketContents>, c': seq<BucketContents>, i: int, n: nat, m: map<string, Value>)
    requires SameNodes(c, c') && Placed(c, i, n) && Holds(c, i, n, m)
    ensures Placed(c', i, n) && Holds(c', i, n, m)
  {
    hide Hash, Bucket;
    forall key | key in m && Bucket(Hash(key), n) == i ensures Spot(c', key) < |c'| {
      assert c[Spot(c, key)].key == key;
      SpotFound(c', key, Spot(c, key));
    }
    hide Spot;
  }
}
