/**
  An attribute bag: a Python dict with string keys, kept in insertion order.
  Assigning to a key that is present replaces its value where it stands;
  assigning to a new key appends it.
*/
module AttrBag {
  import opened Wrappers

  type Bag<V> = seq<(string, V)>

  function Keys<V>(b: Bag<V>): (ks: seq<string>)
    ensures |ks| == |b|
    ensures forall i :: 0 <= i < |b| ==> ks[i] == b[i].0
  {
    if b == [] then [] else [b[0].0] + Keys(b[1..])
  }

  predicate DistinctKeys<V>(b: Bag<V>)
  {
    forall i, j :: 0 <= i < j < |b| ==> b[i].0 != b[j].0
  }

  /** `d.get(k)`: the value stored under `k`, if any. */
  function Lookup<V>(b: Bag<V>, k: string): Option<V>
  {
    if b == [] then None else if b[0].0 == k then Some(b[0].1) else Lookup(b[1..], k)
  }

  /** `d[k] = v` */
  function Put<V>(b: Bag<V>, k: string, v: V): Bag<V>
  {
    if b == [] then [(k, v)]
    else if b[0].0 == k then [(k, v)] + b[1..]
    else [b[0]] + Put(b[1..], k, v)
  }

  /** A key has a value exactly when it is one of the keys. */
  lemma {:induction false} LookupPresent<V>(b: Bag<V>, k: string)
    ensures Lookup(b, k).Some? <==> k in Keys(b)
  {
    if b != [] {
      LookupPresent(b[1..], k);
      assert Keys(b) == [b[0].0] + Keys(b[1..]);
    }
  }

  /** The key list of a bag with distinct keys has no repeats. */
  lemma DistinctKeyList<V>(b: Bag<V>)
    requires DistinctKeys(b)
    ensures forall i, j :: 0 <= i < j < |Keys(b)| ==> Keys(b)[i] != Keys(b)[j]
  {
  }

  /** Where a key of the bag stands. */
  lemma {:induction false} KeyIndex<V>(b: Bag<V>, k: string) returns (i: nat)
    requires k in Keys(b)
    ensures i < |b| && b[i].0 == k
  {
    if b[0].0 == k {
      i := 0;
    } else {
      assert Keys(b) == [b[0].0] + Keys(b[1..]);
      var j := KeyIndex(b[1..], k);
      i := j + 1;
    }
  }

  /** In a bag with distinct keys, each entry is what its key looks up. */
  lemma {:induction false} LookupAt<V>(b: Bag<V>, i: nat)
    requires DistinctKeys(b) && i < |b|
    ensures Lookup(b, b[i].0) == Some(b[i].1)
  {
    if i > 0 {
      LookupAt(b[1..], i - 1);
    }
  }

  /** Assignment keeps the key order, appending the key when it is new. */
  lemma {:induction false} PutKeys<V>(b: Bag<V>, k: string, v: V)
    ensures Keys(Put(b, k, v)) == if k in Keys(b) then Keys(b) else Keys(b) + [k]
  {
    if b != [] && b[0].0 != k {
      PutKeys(b[1..], k, v);
      assert Keys(b) == [b[0].0] + Keys(b[1..]);
      assert Put(b, k, v)[1..] == Put(b[1..], k, v);
    }
  }

  /** After `d[k] = v`, `k` holds `v` and every other key holds what it held. */
  lemma {:induction false} PutLookup<V>(b: Bag<V>, k: string, v: V)
    ensures forall k' :: Lookup(Put(b, k, v), k') == if k' == k then Some(v) else Lookup(b, k')
  {
    if b != [] && b[0].0 != k {
      PutLookup(b[1..], k, v);
      assert Put(b, k, v)[1..] == Put(b[1..], k, v);
    }
  }

  /** Assigning to a present key replaces that entry where it stands. */
  lemma {:induction false} PutInPlace<V>(b: Bag<V>, k: string, v: V, i: nat)
    requires DistinctKeys(b) && i < |b| && b[i].0 == k
    ensures Put(b, k, v) == b[i := (k, v)]
  {
    if i > 0 {
      PutInPlace(b[1..], k, v, i - 1);
      assert b[i := (k, v)] == [b[0]] + b[1..][i - 1 := (k, v)];
    }
  }

  /** Assigning to a new key appends it. */
  lemma {:induction false} PutAppends<V>(b: Bag<V>, k: string, v: V)
    requires k !in Keys(b)
    ensures Put(b, k, v) == b + [(k, v)]
  {
    if b != [] {
      assert Keys(b) == [b[0].0] + Keys(b[1..]);
      PutAppends(b[1..], k, v);
      assert b == [b[0]] + b[1..];
    }
  }

  /** Assignment never duplicates a key. */
  lemma PutDistinct<V>(b: Bag<V>, k: string, v: V)
    requires DistinctKeys(b)
    ensures DistinctKeys(Put(b, k, v))
  {
    if k in Keys(b) {
      var i := KeyIndex(b, k);
      PutInPlace(b, k, v, i);
    } else {
      PutAppends(b, k, v);
    }
  }

  /** Assigning a key the value it was just assigned changes nothing. */
  lemma {:induction false} PutTwice<V>(b: Bag<V>, k: string, v: V)
    ensures Put(Put(b, k, v), k, v) == Put(b, k, v)
  {
    if b != [] && b[0].0 != k {
      PutTwice(b[1..], k, v);
      assert Put(b, k, v)[1..] == Put(b[1..], k, v);
    }
  }

  /** Two bags with distinct keys, the same key order and the same values are equal. */
  lemma Extensional<V>(a: Bag<V>, b: Bag<V>)
    requires DistinctKeys(a) && DistinctKeys(b) && Keys(a) == Keys(b)
    requires forall k :: Lookup(a, k) == Lookup(b, k)
    ensures a == b
  {
    forall i | 0 <= i < |a|
      ensures a[i] == b[i]
    {
      assert Keys(a)[i] == Keys(b)[i];
      LookupAt(a, i);
      LookupAt(b, i);
    }
  }

  /**
    The keys of `ks` that are not yet in `seen`, in order, each once: the keys
    that a run of assignments in the order of `ks` appends.
  */
  function NewKeys(ks: seq<string>, seen: seq<string>): seq<string>
  {
    if ks == [] then []
    else if ks[0] in seen then NewKeys(ks[1..], seen)
    else [ks[0]] + NewKeys(ks[1..], seen + [ks[0]])
  }

  /** Keys that are all new and distinct are all appended. */
  lemma {:induction false} NewKeysAllNew(ks: seq<string>, seen: seq<string>)
    requires forall i, j :: 0 <= i < j < |ks| ==> ks[i] != ks[j]
    requires forall i :: 0 <= i < |ks| ==> ks[i] !in seen
    ensures NewKeys(ks, seen) == ks
  {
    if ks != [] {
      NewKeysAllNew(ks[1..], seen + [ks[0]]);
      assert ks == [ks[0]] + ks[1..];
    }
  }

  /** Keys already seen are skipped. */
  lemma {:induction false} NewKeysSkipSeen(p: seq<string>, r: seq<string>, seen: seq<string>)
    requires forall i :: 0 <= i < |p| ==> p[i] in seen
    ensures NewKeys(p + r, seen) == NewKeys(r, seen)
  {
    if p != [] {
      var ks := p + r;
      assert ks[0] == p[0] && ks[0] in seen;
      assert NewKeys(ks, seen) == NewKeys(ks[1..], seen);
      assert ks[1..] == p[1..] + r;
      NewKeysSkipSeen(p[1..], r, seen);
    } else {
      assert p + r == r;
    }
  }

  /** Distinct keys whose first `n` are the keys already seen append the rest. */
  lemma NewKeysAfterPrefix(ks: seq<string>, n: nat)
    requires n <= |ks|
    requires forall i, j :: 0 <= i < j < |ks| ==> ks[i] != ks[j]
    ensures NewKeys(ks, ks[..n]) == ks[n..]
    ensures ks[..n] + NewKeys(ks, ks[..n]) == ks
  {
    assert ks == ks[..n] + ks[n..];
    NewKeysSkipSeen(ks[..n], ks[n..], ks[..n]);
    forall i | 0 <= i < |ks[n..]| ensures ks[n..][i] !in ks[..n] {
      assert ks[n..][i] == ks[n + i];
    }
    NewKeysAllNew(ks[n..], ks[..n]);
  }
}
