/**
 * Bucketing a list by a key with a dictionary accumulator, the shape of
 * `tasks.reduce((acc, task) => { ...; acc[key].push(task); return acc }, {})`
 * followed by `Object.entries(acc)`. A JavaScript object reports keys that are
 * not array indices in insertion order, so the entries come in the order in
 * which each key first appeared.
 */
module Grouping {

  /** One entry of `Object.entries(acc)`: a key and its bucket. */
  datatype Group<K, T> = Group(key: K, members: seq<T>)

  predicate Distinct<K(==)>(ks: seq<K>)
  {
    forall a, b :: 0 <= a < b < |ks| ==> ks[a] != ks[b]
  }

  /** The elements of `s` whose key is `k`, in input order: what the pushes build. */
  function Bucket<T, K(==)>(s: seq<T>, key: T -> K, k: K): seq<T>
  {
    if s == [] then []
    else Bucket(s[..|s| - 1], key, k) + (if key(s[|s| - 1]) == k then [s[|s| - 1]] else [])
  }

  /** The keys of `s` in order of first appearance: the accumulator's insertion order. */
  function FirstKeys<T, K(==)>(s: seq<T>, key: T -> K): seq<K>
  {
    if s == [] then []
    else
      var ks := FirstKeys(s[..|s| - 1], key);
      if key(s[|s| - 1]) in ks then ks else ks + [key(s[|s| - 1])]
  }

  /** The position of the first element of `s` with key `k`, or `|s|` when there is none. */
  function FirstIndex<T, K(==)>(s: seq<T>, key: T -> K, k: K): (r: nat)
    ensures r <= |s|
    ensures r < |s| ==> key(s[r]) == k
    ensures forall i :: 0 <= i < r ==> key(s[i]) != k
  {
    if s == [] then 0
    else if key(s[0]) == k then 0
    else 1 + FirstIndex(s[1..], key, k)
  }

  /** One group per key of `ks`, holding that key's bucket. */
  function GroupsFor<T, K(==)>(s: seq<T>, key: T -> K, ks: seq<K>): (gs: seq<Group<K, T>>)
    ensures |gs| == |ks|
    ensures forall j :: 0 <= j < |ks| ==> gs[j] == Group(ks[j], Bucket(s, key, ks[j]))
  {
    if ks == [] then [] else [Group(ks[0], Bucket(s, key, ks[0]))] + GroupsFor(s, key, ks[1..])
  }

  /** `Object.entries` of the accumulator after the reduce. */
  function Grouped<T, K(==)>(s: seq<T>, key: T -> K): seq<Group<K, T>>
  {
    GroupsFor(s, key, FirstKeys(s, key))
  }

  /** The members of all groups, one group after the other. */
  function Flatten<K, T>(gs: seq<Group<K, T>>): seq<T>
  {
    if gs == [] then [] else gs[0].members + Flatten(gs[1..])
  }

  /** `Object.entries(acc)` for an accumulator whose insertion order is `keys`. */
  function Entries<T, K(==)>(keys: seq<K>, acc: map<K, seq<T>>): (gs: seq<Group<K, T>>)
    requires forall k :: k in keys ==> k in acc
    ensures |gs| == |keys|
    ensures forall j :: 0 <= j < |keys| ==> gs[j] == Group(keys[j], acc[keys[j]])
  {
    if keys == [] then [] else [Group(keys[0], acc[keys[0]])] + Entries(keys[1..], acc)
  }

  /**
   * The reduce itself: each element is pushed onto the bucket of its key, a
   * bucket being created on the key's first appearance; `keys` records that
   * creation order.
   */
  method GroupBy<T, K(==)>(s: seq<T>, key: T -> K) returns (groups: seq<Group<K, T>>)
    ensures groups == Grouped(s, key)
  {
    var keys: seq<K> := [];
    var acc: map<K, seq<T>> := map[];
    var i := 0;
    while i < |s|
      invariant 0 <= i <= |s|
      invariant keys == FirstKeys(s[..i], key)
      invariant forall k :: k in acc <==> k in keys
      invariant forall k :: k in acc ==> acc[k] == Bucket(s[..i], key, k)
    {
      var x, k := s[i], key(s[i]);
      PushStep(s, i, key);
      if k !in acc {
        BucketWithoutKey(s[..i], key, k);
        acc := acc[k := []];
        keys := keys + [k];
      }
      assert forall kk :: kk in acc ==> acc[kk] == Bucket(s[..i], key, kk);
      ghost var before := acc;
      acc := acc[k := acc[k] + [x]];
      forall kk | kk in acc
        ensures acc[kk] == Bucket(s[..i + 1], key, kk)
      {
        assert Bucket(s[..i + 1], key, kk) == Bucket(s[..i], key, kk) + (if k == kk then [x] else []);
        if kk != k {
          assert acc[kk] == before[kk];
        } else {
          assert before[k] == Bucket(s[..i], key, k);
        }
      }
      i := i + 1;
    }
    assert s[..i] == s;
    groups := Entries(keys, acc);
  }

  /** What appending one element does to the keys and to every bucket. */
  lemma PushStep<T, K>(s: seq<T>, i: nat, key: T -> K)
    requires i < |s|
    ensures FirstKeys(s[..i + 1], key) ==
      if key(s[i]) in FirstKeys(s[..i], key) then FirstKeys(s[..i], key)
      else FirstKeys(s[..i], key) + [key(s[i])]
    ensures forall k ::
      Bucket(s[..i + 1], key, k) == Bucket(s[..i], key, k) + (if key(s[i]) == k then [s[i]] else [])
  {
    assert s[..i + 1][..i] == s[..i];
  }

  // ---------------------------------------------------------------------
  // Properties of the grouping
  // ---------------------------------------------------------------------

  /** A bucket holds exactly the elements of `s` whose key is `k`. */
  lemma {:induction false} BucketMembers<T, K>(s: seq<T>, key: T -> K, k: K)
    ensures forall x :: x in Bucket(s, key, k) ==> x in s && key(x) == k
    ensures forall i :: 0 <= i < |s| && key(s[i]) == k ==> s[i] in Bucket(s, key, k)
  {
    if s != [] {
      var init := s[..|s| - 1];
      BucketMembers(init, key, k);
      assert forall x :: x in init ==> x in s;
      assert forall i :: 0 <= i < |init| ==> s[i] == init[i];
    }
  }

  /** The keys are distinct, every element's key is among them, and each comes from some element. */
  lemma {:induction false} FirstKeysSound<T, K>(s: seq<T>, key: T -> K)
    ensures Distinct(FirstKeys(s, key))
    ensures forall i :: 0 <= i < |s| ==> key(s[i]) in FirstKeys(s, key)
    ensures forall k :: k in FirstKeys(s, key) ==> exists i :: 0 <= i < |s| && key(s[i]) == k
  {
    if s != [] {
      var init := s[..|s| - 1];
      FirstKeysSound(init, key);
      assert forall i :: 0 <= i < |init| ==> s[i] == init[i];
    }
  }

  /** A key that no element of `s` carries has an empty bucket. */
  lemma {:induction false} BucketWithoutKey<T, K>(s: seq<T>, key: T -> K, k: K)
    requires k !in FirstKeys(s, key)
    ensures Bucket(s, key, k) == []
  {
    if s != [] {
      var init := s[..|s| - 1];
      assert k !in FirstKeys(init, key);
      BucketWithoutKey(init, key, k);
    }
  }

  lemma {:induction false} FlattenOfEmpty<T, K>(key: T -> K, ks: seq<K>)
    ensures Flatten(GroupsFor([], key, ks)) == []
  {
    if ks != [] {
      FlattenOfEmpty(key, ks[1..]);
    }
  }

  /** Appending one element to `s` adds it once to the flattened groups when its key is listed. */
  lemma {:induction false} FlattenSnoc<T, K>(s: seq<T>, key: T -> K, ks: seq<K>)
    requires s != []
    requires Distinct(ks)
    ensures multiset(Flatten(GroupsFor(s, key, ks))) ==
      multiset(Flatten(GroupsFor(s[..|s| - 1], key, ks)))
      + (if key(s[|s| - 1]) in ks then multiset{s[|s| - 1]} else multiset{})
  {
    if ks != [] {
      var rest := ks[1..];
      assert Distinct(rest);
      assert key(s[|s| - 1]) in ks <==> key(s[|s| - 1]) == ks[0] || key(s[|s| - 1]) in rest;
      assert key(s[|s| - 1]) == ks[0] ==> key(s[|s| - 1]) !in rest;
      FlattenSnoc(s, key, rest);
    }
  }

  /** Grouping over distinct keys that cover every element loses and duplicates nothing. */
  lemma {:induction false} FlattenCovers<T, K>(s: seq<T>, key: T -> K, ks: seq<K>)
    requires Distinct(ks)
    requires forall i :: 0 <= i < |s| ==> key(s[i]) in ks
    ensures multiset(Flatten(GroupsFor(s, key, ks))) == multiset(s)
  {
    if s == [] {
      FlattenOfEmpty(key, ks);
    } else {
      var init, last := s[..|s| - 1], s[|s| - 1];
      assert s == init + [last];
      assert multiset(s) == multiset(init) + multiset{last};
      assert forall i :: 0 <= i < |init| ==> key(init[i]) in ks by {
        assert forall i :: 0 <= i < |init| ==> init[i] == s[i];
      }
      FlattenCovers(init, key, ks);
      FlattenSnoc(s, key, ks);
      assert key(last) in ks;
    }
  }

  /** The concatenated buckets are a permutation of the input. */
  lemma GroupingIsPermutation<T, K>(s: seq<T>, key: T -> K)
    ensures multiset(Flatten(Grouped(s, key))) == multiset(s)
  {
    FirstKeysSound(s, key);
    FlattenCovers(s, key, FirstKeys(s, key));
  }

  /**
   * Every element lands in exactly one group: the one whose key is its own
   * (the group keys being distinct).
   */
  lemma GroupingIsPartition<T, K>(s: seq<T>, key: T -> K, i: nat)
    requires i < |s|
    ensures Distinct(Keys(Grouped(s, key)))
    ensures exists j :: 0 <= j < |Grouped(s, key)| && Grouped(s, key)[j].key == key(s[i])
    ensures forall j :: 0 <= j < |Grouped(s, key)| ==>
      (s[i] in Grouped(s, key)[j].members <==> Grouped(s, key)[j].key == key(s[i]))
  {
    var ks, gs := FirstKeys(s, key), Grouped(s, key);
    FirstKeysSound(s, key);
    assert Keys(gs) == ks;
    var j :| 0 <= j < |ks| && ks[j] == key(s[i]);
    assert gs[j].key == key(s[i]);
    forall j | 0 <= j < |gs|
      ensures s[i] in gs[j].members <==> gs[j].key == key(s[i])
    {
      BucketMembers(s, key, ks[j]);
    }
  }

  /** The keys of a list of groups, in order. */
  function Keys<K, T>(gs: seq<Group<K, T>>): (ks: seq<K>)
    ensures |ks| == |gs|
    ensures forall j :: 0 <= j < |gs| ==> ks[j] == gs[j].key
  {
    if gs == [] then [] else [gs[0].key] + Keys(gs[1..])
  }

  /** Groups come in the order in which their keys first appear in the input. */
  lemma {:induction false} GroupsInFirstAppearanceOrder<T, K>(s: seq<T>, key: T -> K)
    ensures forall a, b :: 0 <= a < b < |Grouped(s, key)| ==>
      FirstIndex(s, key, Grouped(s, key)[a].key) < FirstIndex(s, key, Grouped(s, key)[b].key)
  {
    FirstKeysOrdered(s, key);
  }

  lemma {:induction false} FirstKeysOrdered<T, K>(s: seq<T>, key: T -> K)
    ensures forall a, b :: 0 <= a < b < |FirstKeys(s, key)| ==>
      FirstIndex(s, key, FirstKeys(s, key)[a]) < FirstIndex(s, key, FirstKeys(s, key)[b])
    ensures forall k :: k in FirstKeys(s, key) ==> FirstIndex(s, key, k) < |s|
  {
    if s != [] {
      var init, last := s[..|s| - 1], s[|s| - 1];
      FirstKeysOrdered(init, key);
      FirstKeysSound(init, key);
      var ks := FirstKeys(init, key);
      // A key already present in `init` has its first occurrence there.
      forall k | k in ks
        ensures FirstIndex(s, key, k) == FirstIndex(init, key, k)
      {
        var p := FirstIndex(init, key, k);
        assert init[p] == s[p];
        assert forall i :: 0 <= i < p ==> init[i] == s[i];
      }
      if key(last) !in ks {
        assert forall i :: 0 <= i < |init| ==> key(s[i]) == key(init[i]) && key(init[i]) in ks;
        assert FirstIndex(s, key, key(last)) == |init|;
      }
    }
  }

  /** Elements that all share one key make at most one group, under that key. */
  lemma {:induction false} SingleKeyOneGroup<T, K>(s: seq<T>, key: T -> K, k0: K)
    requires forall i :: 0 <= i < |s| ==> key(s[i]) == k0
    ensures FirstKeys(s, key) == if s == [] then [] else [k0]
    ensures |Grouped(s, key)| <= 1
    ensures forall j :: 0 <= j < |Grouped(s, key)| ==> Grouped(s, key)[j].key == k0
  {
    if s != [] {
      var init := s[..|s| - 1];
      assert forall i :: 0 <= i < |init| ==> init[i] == s[i];
      SingleKeyOneGroup(init, key, k0);
    }
  }
}
