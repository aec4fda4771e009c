/**
 * Grouping records under a key, the way the dashboard pages do it with a
 * plain JavaScript object: `if (!acc[key]) acc[key] = []; acc[key].push(row)`,
 * then `Object.entries(acc)`. Keys that are ordinary strings come back in
 * insertion (first-appearance) order; keys that are canonical non-negative
 * integers ("2024") come back in ascending numeric order. Both orders are
 * defined here, together with the group of a key and the proof that the
 * groups partition the input.
 */
module Grouping {

  predicate Distinct<T(==,!new)>(s: seq<T>)
  {
    forall i, j :: 0 <= i < j < |s| ==> s[i] != s[j]
  }

  /** The distinct elements of xs, each in the position of its first appearance (a JS `Set`, or the keys of an object in insertion order). */
  function Dedup<T(==,!new)>(xs: seq<T>): (r: seq<T>)
    ensures Distinct(r)
    ensures forall x :: x in r <==> x in xs
    ensures |r| <= |xs|
  {
    if xs == [] then []
    else
      var p := Dedup(xs[..|xs| - 1]);
      var x := xs[|xs| - 1];
      assert forall y :: y in xs <==> y in xs[..|xs| - 1] || y == x by {
        assert xs == xs[..|xs| - 1] + [x];
      }
      if x in p then p else p + [x]
  }

  /** Index of the first occurrence of x in xs. */
  function FirstIndex<T(==,!new)>(xs: seq<T>, x: T): (i: nat)
    requires x in xs
    ensures i < |xs| && xs[i] == x && x !in xs[..i]
  {
    if xs[0] == x then 0 else 1 + FirstIndex(xs[1..], x)
  }

  lemma {:induction false} FirstIndexPrefix<T(!new)>(xs: seq<T>, n: nat, x: T)
    requires n <= |xs| && x in xs[..n]
    ensures FirstIndex(xs, x) == FirstIndex(xs[..n], x)
    decreases n
  {
    var pre := xs[..n];
    assert pre[0] == xs[0];
    if xs[0] != x {
      var tail := xs[1..];
      assert pre[1..] == tail[..n - 1];
      assert x in tail[..n - 1] by {
        var q :| 0 <= q < n && pre[q] == x;
        assert q != 0 && tail[..n - 1][q - 1] == x;
      }
      FirstIndexPrefix(tail, n - 1, x);
    }
  }

  /** Dedup lists keys in the order of their first appearance in the input. */
  lemma {:induction false} DedupFirstAppearance<T(!new)>(xs: seq<T>, i: nat, j: nat)
    requires i < j < |Dedup(xs)|
    ensures FirstIndex(xs, Dedup(xs)[i]) < FirstIndex(xs, Dedup(xs)[j])
    decreases |xs|
  {
    var init, x := xs[..|xs| - 1], xs[|xs| - 1];
    var p := Dedup(init);
    var r := Dedup(xs);
    if j < |p| {
      assert r[i] == p[i] && r[j] == p[j];
      DedupFirstAppearance(init, i, j);
      FirstIndexPrefix(xs, |xs| - 1, p[i]);
      FirstIndexPrefix(xs, |xs| - 1, p[j]);
    } else {
      assert r == p + [x] && r[j] == x && x !in init;
      assert r[i] == p[i] && p[i] in init;
      FirstIndexPrefix(xs, |xs| - 1, p[i]);
      assert FirstIndex(xs, x) == |xs| - 1 by {
        assert x !in xs[..|xs| - 1];
      }
    }
  }

  /** A list that already has no duplicates is its own Dedup. */
  lemma {:induction false} DedupOfDistinct<T(!new)>(xs: seq<T>)
    requires Distinct(xs)
    ensures Dedup(xs) == xs
    decreases |xs|
  {
    if xs != [] {
      var init := xs[..|xs| - 1];
      DedupOfDistinct(init);
      assert xs[|xs| - 1] !in init;
      assert xs == init + [xs[|xs| - 1]];
    }
  }

  /** The key of every element, in input order. */
  function KeysOf<T(==,!new), K(==,!new)>(xs: seq<T>, key: T -> K): (r: seq<K>)
    ensures |r| == |xs|
    ensures forall i :: 0 <= i < |xs| ==> r[i] == key(xs[i])
  {
    seq(|xs|, i requires 0 <= i < |xs| => key(xs[i]))
  }

  lemma KeysOfSnoc<T(!new), K(!new)>(xs: seq<T>, x: T, key: T -> K)
    ensures KeysOf(xs + [x], key) == KeysOf(xs, key) + [key(x)]
  {
  }

  /** The elements of xs whose key is k, in input order. */
  function GroupOf<T(==,!new), K(==,!new)>(xs: seq<T>, key: T -> K, k: K): (g: seq<T>)
    ensures |g| <= |xs|
    ensures forall x :: x in g <==> x in xs && key(x) == k
    ensures forall i :: 0 <= i < |g| ==> key(g[i]) == k
  {
    if xs == [] then []
    else
      var init, x := xs[..|xs| - 1], xs[|xs| - 1];
      assert xs == init + [x];
      GroupOf(init, key, k) + (if key(x) == k then [x] else [])
  }

  lemma GroupOfSnoc<T(!new), K(!new)>(xs: seq<T>, x: T, key: T -> K, k: K)
    ensures GroupOf(xs + [x], key, k) == GroupOf(xs, key, k) + (if key(x) == k then [x] else [])
  {
    assert (xs + [x])[..|xs|] == xs;
  }

  /** A key taken from the input has a non-empty group. */
  lemma GroupNonEmpty<T(!new), K(!new)>(xs: seq<T>, key: T -> K, k: K)
    requires k in KeysOf(xs, key)
    ensures GroupOf(xs, key, k) != []
  {
    var i :| 0 <= i < |xs| && KeysOf(xs, key)[i] == k;
    assert xs[i] in GroupOf(xs, key, k);
  }

  /** A key that no element has, has the empty group. */
  lemma GroupEmpty<T(!new), K(!new)>(xs: seq<T>, key: T -> K, k: K)
    requires k !in KeysOf(xs, key)
    ensures GroupOf(xs, key, k) == []
  {
  }

  /** xs[j] has key k and no later element has it. */
  predicate IsLastWithKey<T(!new), K(==,!new)>(xs: seq<T>, key: T -> K, k: K, j: int)
  {
    0 <= j < |xs| && key(xs[j]) == k && forall j' :: j < j' < |xs| ==> key(xs[j']) != k
  }

  /** An element without the key appended after the last one with it leaves that one last. */
  lemma LastWithKeySnoc<T(!new), K(!new)>(xs: seq<T>, x: T, key: T -> K, k: K, j: int)
    requires IsLastWithKey(xs, key, k, j) && key(x) != k
    ensures IsLastWithKey(xs + [x], key, k, j)
  {
    var ys := xs + [x];
    forall j' | j < j' < |ys|
      ensures key(ys[j']) != k
    {
      if j' < |xs| {
        assert ys[j'] == xs[j'];
      }
    }
  }

  /** The last element of a group is the last element of xs with that key. */
  lemma GroupLast<T(!new), K(!new)>(xs: seq<T>, key: T -> K, k: K)
    requires GroupOf(xs, key, k) != []
    ensures exists j :: IsLastWithKey(xs, key, k, j) && xs[j] == GroupOf(xs, key, k)[|GroupOf(xs, key, k)| - 1]
  {
    var j := GroupLastIndex(xs, key, k);
    assert IsLastWithKey(xs, key, k, j) && xs[j] == GroupOf(xs, key, k)[|GroupOf(xs, key, k)| - 1];
  }

  /** The position of the last element with key k, which ends its group. */
  lemma {:induction false} GroupLastIndex<T(!new), K(!new)>(xs: seq<T>, key: T -> K, k: K) returns (j: int)
    requires GroupOf(xs, key, k) != []
    ensures IsLastWithKey(xs, key, k, j) && xs[j] == GroupOf(xs, key, k)[|GroupOf(xs, key, k)| - 1]
    decreases |xs|
  {
    var init, x := xs[..|xs| - 1], xs[|xs| - 1];
    var g := GroupOf(xs, key, k);
    var gi := GroupOf(init, key, k);
    assert g == gi + (if key(x) == k then [x] else []) by {
      assert xs == init + [x];
      GroupOfSnoc(init, x, key, k);
    }
    if key(x) == k {
      j := |xs| - 1;
    } else {
      j := GroupLastIndex(init, key, k);
      assert IsLastWithKey(xs, key, k, j) by {
        LastWithKeySnoc(init, x, key, k, j);
        assert xs == init + [x];
      }
      assert xs[j] == init[j];
    }
  }

  function TotalSize<T(==,!new), K(==,!new)>(xs: seq<T>, key: T -> K, ks: seq<K>): nat
  {
    if ks == [] then 0
    else TotalSize(xs, key, ks[..|ks| - 1]) + |GroupOf(xs, key, ks[|ks| - 1])|
  }

  function Count<K(==,!new)>(ks: seq<K>, c: K): nat
  {
    if ks == [] then 0
    else Count(ks[..|ks| - 1], c) + (if ks[|ks| - 1] == c then 1 else 0)
  }

  lemma {:induction false} CountDistinct<K(!new)>(ks: seq<K>, c: K)
    requires Distinct(ks)
    ensures Count(ks, c) == if c in ks then 1 else 0
    decreases |ks|
  {
    if ks != [] {
      var init := ks[..|ks| - 1];
      CountDistinct(init, c);
      assert ks == init + [ks[|ks| - 1]];
      assert ks[|ks| - 1] !in init;
    }
  }

  lemma {:induction false} TotalSizeSnoc<T(!new), K(!new)>(xs: seq<T>, x: T, key: T -> K, ks: seq<K>)
    ensures TotalSize(xs + [x], key, ks) == TotalSize(xs, key, ks) + Count(ks, key(x))
    decreases |ks|
  {
    if ks != [] {
      TotalSizeSnoc(xs, x, key, ks[..|ks| - 1]);
      GroupOfSnoc(xs, x, key, ks[|ks| - 1]);
    }
  }

  /**
   * The groups partition the input: every element lands in exactly one
   * group, so the group sizes over the distinct keys add up to the input length.
   */
  lemma {:induction false} GroupsPartition<T(!new), K(!new)>(xs: seq<T>, key: T -> K)
    ensures TotalSize(xs, key, Dedup(KeysOf(xs, key))) == |xs|
    decreases |xs|
  {
    if xs != [] {
      var init, x := xs[..|xs| - 1], xs[|xs| - 1];
      assert xs == init + [x];
      GroupsPartition(init, key);
      KeysOfSnoc(init, x, key);
      var ks := KeysOf(xs, key);
      var d := Dedup(KeysOf(init, key));
      assert ks[..|ks| - 1] == KeysOf(init, key);
      TotalSizeSnoc(init, x, key, d);
      CountDistinct(d, key(x));
      if key(x) !in d {
        assert Dedup(ks) == d + [key(x)];
        assert (d + [key(x)])[..|d|] == d;
        TotalSizeSnoc(init, x, key, d + [key(x)]);
        GroupEmpty(init, key, key(x));
        GroupOfSnoc(init, x, key, key(x));
      }
    }
  }

  lemma DedupSnoc<K(!new)>(ks: seq<K>, k: K)
    ensures Dedup(ks + [k]) == if k in Dedup(ks) then Dedup(ks) else Dedup(ks) + [k]
  {
    assert (ks + [k])[..|ks|] == ks;
  }

  /** `if (!acc[k]) acc[k] = []; acc[k].push(x)`. */
  function Pushed<T, K>(groups: map<K, seq<T>>, k: K, x: T): (r: map<K, seq<T>>)
    ensures r.Keys == groups.Keys + {k}
    ensures r[k] == (if k in groups then groups[k] else []) + [x]
    ensures forall k' :: k' in groups && k' != k ==> r[k'] == groups[k']
  {
    var created := if k in groups then groups else groups[k := []];
    created[k := created[k] + [x]]
  }

  /** Every key of pre mapped to its group. */
  ghost function GroupsOf<T(!new), K(!new)>(pre: seq<T>, key: T -> K): map<K, seq<T>>
  {
    map k | k in Dedup(KeysOf(pre, key)) :: GroupOf(pre, key, k)
  }

  /** What the grouping loop has built after reading the elements of pre. */
  ghost predicate Grouped<T(!new), K(!new)>(pre: seq<T>, key: T -> K, keys: seq<K>, groups: map<K, seq<T>>)
  {
    keys == Dedup(KeysOf(pre, key)) && groups == GroupsOf(pre, key)
  }

  /** One step of the loop on the keys: a new key is appended, a known one changes nothing. */
  lemma KeysStep<T(!new), K(!new)>(pre: seq<T>, x: T, key: T -> K)
    ensures var keys := Dedup(KeysOf(pre, key));
            Dedup(KeysOf(pre + [x], key)) == if key(x) in keys then keys else keys + [key(x)]
  {
    KeysOfSnoc(pre, x, key);
    DedupSnoc(KeysOf(pre, key), key(x));
  }

  /** One step of the loop on the groups: create the empty group if the key is new, then push the element. */
  lemma GroupsStep<T(!new), K(!new)>(pre: seq<T>, x: T, key: T -> K)
    ensures Pushed(GroupsOf(pre, key), key(x), x) == GroupsOf(pre + [x], key)
  {
    var g, g' := GroupsOf(pre, key), GroupsOf(pre + [x], key);
    var p := Pushed(g, key(x), x);
    assert p.Keys == g'.Keys by {
      KeysStep(pre, x, key);
    }
    forall k | k in p
      ensures p[k] == g'[k]
    {
      GroupOfSnoc(pre, x, key, k);
      if k == key(x) && k !in g {
        GroupEmpty(pre, key, k);
      }
    }
  }

  /** The step on the input read so far: from the first i elements to the first i + 1. */
  lemma GroupedPrefixStep<T(!new), K(!new)>(xs: seq<T>, i: nat, key: T -> K, keys: seq<K>, groups: map<K, seq<T>>)
    requires i < |xs|
    requires Grouped(xs[..i], key, keys, groups)
    ensures Grouped(xs[..i + 1], key, if key(xs[i]) in groups then keys else keys + [key(xs[i])],
                    Pushed(groups, key(xs[i]), xs[i]))
  {
    assert xs[..i + 1] == xs[..i] + [xs[i]];
    assert key(xs[i]) in groups <==> key(xs[i]) in keys;
    KeysStep(xs[..i], xs[i], key);
    GroupsStep(xs[..i], xs[i], key);
  }

  /**
   * `acc[key] = acc[key] || []; acc[key].push(row)` over every row: the keys
   * in first-appearance order and, for each key, the rows that have it.
   */
  method GroupBy<T(==,!new), K(==,!new)>(xs: seq<T>, key: T -> K) returns (keys: seq<K>, groups: map<K, seq<T>>)
    ensures keys == Dedup(KeysOf(xs, key))
    ensures forall k :: k in groups <==> k in keys
    ensures forall k :: k in groups ==> groups[k] == GroupOf(xs, key, k) && groups[k] != []
  {
    keys, groups := [], map[];
    var i := 0;
    while i < |xs|
      invariant 0 <= i <= |xs|
      invariant Grouped(xs[..i], key, keys, groups)
    {
      var k := key(xs[i]);
      GroupedPrefixStep(xs, i, key, keys, groups);
      if k !in groups {
        groups := groups[k := []];
        keys := keys + [k];
      }
      groups := groups[k := groups[k] + [xs[i]]];
      i := i + 1;
    }
    GroupedAll(xs, key, keys, groups);
  }

  /** Once every element is read, the keys and groups are those of the whole input, and no group is empty. */
  lemma GroupedAll<T(!new), K(!new)>(xs: seq<T>, key: T -> K, keys: seq<K>, groups: map<K, seq<T>>)
    requires Grouped(xs[..|xs|], key, keys, groups)
    ensures keys == Dedup(KeysOf(xs, key))
    ensures forall k :: k in groups <==> k in keys
    ensures forall k :: k in groups ==> groups[k] == GroupOf(xs, key, k) && groups[k] != []
  {
    assert xs[..|xs|] == xs;
    assert forall k :: k in groups <==> k in keys;
    forall k | k in groups
      ensures groups[k] != []
    {
      GroupNonEmpty(xs, key, k);
    }
  }

  // ---------------------------------------------------------------------------
  // Integer-like keys: ascending numeric order
  // ---------------------------------------------------------------------------

  predicate StrictlyIncreasing(s: seq<nat>)
  {
    forall i, j :: 0 <= i < j < |s| ==> s[i] < s[j]
  }

  function Insert(x: nat, s: seq<nat>): (r: seq<nat>)
    requires StrictlyIncreasing(s)
    ensures StrictlyIncreasing(r)
    ensures forall y :: y in r <==> y == x || y in s
  {
    if s == [] then [x]
    else if x < s[0] then [x] + s
    else if x == s[0] then s
    else
      var rest := Insert(x, s[1..]);
      assert forall j :: 0 <= j < |rest| ==> s[0] < rest[j] by {
        forall j | 0 <= j < |rest|
          ensures s[0] < rest[j]
        {
          assert rest[j] in rest;
          if rest[j] != x {
            var m :| 0 <= m < |s[1..]| && s[1..][m] == rest[j];
            assert s[m + 1] == rest[j];
          }
        }
      }
      [s[0]] + rest
  }

  /** The distinct elements of xs in ascending order: the order in which `Object.entries` lists integer-like keys. */
  function AscendingKeys(xs: seq<nat>): (r: seq<nat>)
    ensures StrictlyIncreasing(r)
    ensures forall y :: y in r <==> y in xs
  {
    if xs == [] then []
    else
      assert forall y :: y in xs <==> y in xs[..|xs| - 1] || y == xs[|xs| - 1] by {
        assert xs == xs[..|xs| - 1] + [xs[|xs| - 1]];
      }
      Insert(xs[|xs| - 1], AscendingKeys(xs[..|xs| - 1]))
  }

  /** Two strictly increasing lists with the same elements are equal. */
  lemma {:induction false} IncreasingUnique(a: seq<nat>, b: seq<nat>)
    requires StrictlyIncreasing(a) && StrictlyIncreasing(b)
    requires forall y :: y in a <==> y in b
    ensures a == b
    decreases |a|
  {
    assert a == [] <==> b == [] by {
      if a != [] { assert a[0] in b; }
      if b != [] { assert b[0] in a; }
    }
    if a != [] {
      assert a[0] == b[0] by {
        assert a[0] in b && b[0] in a;
      }
      forall y
        ensures y in a[1..] <==> y in b[1..]
      {
        if y in a[1..] {
          assert y in b && y != b[0];
        }
        if y in b[1..] {
          assert y in a && y != a[0];
        }
      }
      IncreasingUnique(a[1..], b[1..]);
    }
  }

  /** The order of integer-like keys depends only on which keys occur, never on insertion order. */
  lemma AscendingKeysIgnoreInsertionOrder(xs: seq<nat>, ys: seq<nat>)
    requires forall y :: y in xs <==> y in ys
    ensures AscendingKeys(xs) == AscendingKeys(ys)
  {
    IncreasingUnique(AscendingKeys(xs), AscendingKeys(ys));
  }

  /** Ascending order lists each distinct key exactly once: the same keys as first-appearance order. */
  lemma AscendingKeysIsDedupReordered(xs: seq<nat>)
    ensures |AscendingKeys(xs)| == |Dedup(xs)|
    ensures multiset(AscendingKeys(xs)) == multiset(Dedup(xs))
  {
    var a, d := AscendingKeys(xs), Dedup(xs);
    assert Distinct(a);
    DistinctSameElements(a, d);
  }

  /** Removing the element at k from a list without duplicates. */
  lemma RemoveAt<T(!new)>(b: seq<T>, k: nat)
    requires Distinct(b) && k < |b|
    ensures Distinct(b[..k] + b[k + 1..])
    ensures forall y :: y in b[..k] + b[k + 1..] <==> y in b && y != b[k]
    ensures multiset(b) == multiset(b[..k] + b[k + 1..]) + multiset{b[k]}
  {
    var rest := b[..k] + b[k + 1..];
    assert multiset(b) == multiset(rest) + multiset{b[k]} by {
      assert b == b[..k] + [b[k]] + b[k + 1..];
    }
    RemoveAtDistinct(b, k);
    RemoveAtMembers(b, k);
  }

  lemma RemoveAtDistinct<T(!new)>(b: seq<T>, k: nat)
    requires Distinct(b) && k < |b|
    ensures Distinct(b[..k] + b[k + 1..])
  {
    var rest := b[..k] + b[k + 1..];
    forall i, j | 0 <= i < j < |rest|
      ensures rest[i] != rest[j]
    {
      var i' := if i < k then i else i + 1;
      var j' := if j < k then j else j + 1;
      assert rest[i] == b[i'] && rest[j] == b[j'];
    }
  }

  lemma RemoveAtMembers<T(!new)>(b: seq<T>, k: nat)
    requires Distinct(b) && k < |b|
    ensures forall y :: y in b[..k] + b[k + 1..] <==> y in b && y != b[k]
  {
    var rest := b[..k] + b[k + 1..];
    forall y | y in b && y != b[k]
      ensures y in rest
    {
      var q :| 0 <= q < |b| && b[q] == y;
      if q < k { assert rest[q] == y; } else { assert rest[q - 1] == y; }
    }
    forall y | y in rest
      ensures y in b && y != b[k]
    {
      var q :| 0 <= q < |rest| && rest[q] == y;
      var q' := if q < k then q else q + 1;
      assert b[q'] == y && q' != k;
    }
  }

  /** Two lists without duplicates and with the same elements are permutations of each other. */
  lemma {:induction false} DistinctSameElements<T(!new)>(a: seq<T>, b: seq<T>)
    requires Distinct(a) && Distinct(b)
    requires forall y :: y in a <==> y in b
    ensures |a| == |b| && multiset(a) == multiset(b)
    decreases |a|
  {
    assert a == [] <==> b == [] by {
      if a != [] { assert a[0] in b; }
      if b != [] { assert b[0] in a; }
    }
    if a != [] {
      var x := a[|a| - 1];
      var init := a[..|a| - 1];
      assert a == init + [x];
      assert x in b;
      var k :| 0 <= k < |b| && b[k] == x;
      RemoveAt(b, k);
      var rest := b[..k] + b[k + 1..];
      assert Distinct(init);
      forall y
        ensures y in init <==> y in rest
      {
        assert y in a <==> y in init || y == x;
        assert y in init ==> y != x;
      }
      DistinctSameElements(init, rest);
    }
  }

  // ---------------------------------------------------------------------------
  // Object.entries order
  // ---------------------------------------------------------------------------

  /**
   * A property name of a plain object: `Index(n)` for a canonical array-index
   * string such as "2024", `Name(s)` for any other string.
   */
  datatype PropKey = Index(n: nat) | Name(s: string)

  /** The array-index keys among ks, as numbers, in input order. */
  function IndexesOf(ks: seq<PropKey>): (r: seq<nat>)
    ensures forall n :: n in r <==> Index(n) in ks
  {
    if ks == [] then []
    else
      var init, k := ks[..|ks| - 1], ks[|ks| - 1];
      assert forall x :: x in ks <==> x in init || x == k by {
        assert ks == init + [k];
      }
      IndexesOf(init) + (if k.Index? then [k.n] else [])
  }

  /** The other keys among ks, in input order. */
  function NamesOf(ks: seq<PropKey>): (r: seq<PropKey>)
    ensures forall k :: k in r <==> k in ks && k.Name?
  {
    if ks == [] then []
    else
      var init, k := ks[..|ks| - 1], ks[|ks| - 1];
      assert forall x :: x in ks <==> x in init || x == k by {
        assert ks == init + [k];
      }
      NamesOf(init) + (if k.Name? then [k] else [])
  }

  /** Index keys for the numbers of a, in the same order. */
  function AsIndexes(a: seq<nat>): (r: seq<PropKey>)
    ensures |r| == |a|
    ensures forall i :: 0 <= i < |a| ==> r[i] == Index(a[i])
  {
    seq(|a|, i requires 0 <= i < |a| => Index(a[i]))
  }

  /**
   * The order in which `Object.entries` lists the keys of an object whose
   * keys were first assigned in the order ks: the array-index keys in
   * ascending numeric order, then the other keys in insertion order.
   */
  function EntriesOrder(ks: seq<PropKey>): seq<PropKey>
  {
    AsIndexes(AscendingKeys(IndexesOf(ks))) + Dedup(NamesOf(ks))
  }

  /** `Object.entries` lists every key of the object exactly once. */
  lemma EntriesOrderListsKeys(ks: seq<PropKey>)
    ensures Distinct(EntriesOrder(ks))
    ensures forall k :: k in EntriesOrder(ks) <==> k in ks
  {
    var a := AscendingKeys(IndexesOf(ks));
    var idx := AsIndexes(a);
    var names := Dedup(NamesOf(ks));
    assert forall k :: k in idx <==> k.Index? && k.n in a by {
      forall k: PropKey | k in idx
        ensures k.Index? && k.n in a
      {
        var i :| 0 <= i < |idx| && idx[i] == k;
      }
      forall k: PropKey | k.Index? && k.n in a
        ensures k in idx
      {
        var i :| 0 <= i < |a| && a[i] == k.n;
        assert idx[i] == k;
      }
    }
    var r := idx + names;
    forall i, j | 0 <= i < j < |r|
      ensures r[i] != r[j]
    {
      if j < |idx| {
        assert a[i] < a[j];
      } else if i >= |idx| {
        assert r[i] == names[i - |idx|] && r[j] == names[j - |idx|];
      } else {
        assert r[j] in names;
      }
    }
  }

  lemma {:induction false} NamesOfAll(ks: seq<PropKey>)
    requires forall i :: 0 <= i < |ks| ==> ks[i].Name?
    ensures NamesOf(ks) == ks
    decreases |ks|
  {
    if ks != [] {
      var init, k := ks[..|ks| - 1], ks[|ks| - 1];
      assert NamesOf(init) == init by {
        NamesOfAll(init);
      }
      assert ks == init + [k];
      assert NamesOf(ks) == NamesOf(init) + [k];
    }
  }

  lemma {:induction false} NoIndexes(ks: seq<PropKey>)
    requires forall i :: 0 <= i < |ks| ==> ks[i].Name?
    ensures IndexesOf(ks) == []
    decreases |ks|
  {
    if ks != [] {
      NoIndexes(ks[..|ks| - 1]);
    }
  }

  lemma {:induction false} NamesOfNone(ks: seq<PropKey>)
    requires forall i :: 0 <= i < |ks| ==> ks[i].Index?
    ensures NamesOf(ks) == []
    decreases |ks|
  {
    if ks != [] {
      NamesOfNone(ks[..|ks| - 1]);
    }
  }

  /** Without array-index keys, entries come back in first-appearance order. */
  lemma EntriesOrderOfNames(ks: seq<PropKey>)
    requires forall i :: 0 <= i < |ks| ==> ks[i].Name?
    ensures EntriesOrder(ks) == Dedup(ks)
  {
    NamesOfAll(ks);
    NoIndexes(ks);
    assert AscendingKeys([]) == [];
  }

  /** Array-index keys come back in strictly ascending numeric order, whatever order they were inserted in. */
  lemma EntriesOrderOfIndexes(ks: seq<PropKey>)
    requires forall i :: 0 <= i < |ks| ==> ks[i].Index?
    ensures forall i :: 0 <= i < |EntriesOrder(ks)| ==> EntriesOrder(ks)[i].Index?
    ensures forall i, j :: 0 <= i < j < |EntriesOrder(ks)| ==> EntriesOrder(ks)[i].n < EntriesOrder(ks)[j].n
  {
    NamesOfNone(ks);
    assert Dedup(NamesOf(ks)) == [];
    var a := AscendingKeys(IndexesOf(ks));
    assert EntriesOrder(ks) == AsIndexes(a);
  }
}
