/** Python dictionaries: a finite map that remembers the order its keys were first inserted in. */
module Dicts {
  import opened Seqs

  datatype Dict<K, V> = Dict(order: seq<K>, entries: map<K, V>)

  ghost predicate Valid<K(!new), V(!new)>(d: Dict<K, V>) {
    Distinct(d.order) && (set k | k in d.order) == d.entries.Keys
  }

  function Empty<K(!new), V(!new)>(): (d: Dict<K, V>)
    ensures Valid(d)
  {
    Dict([], map[])
  }

  /** `d[k] = v`: an existing key keeps its place. */
  function Put<K(!new), V(!new)>(d: Dict<K, V>, k: K, v: V): (r: Dict<K, V>)
    ensures r.entries == d.entries[k := v]
    ensures Valid(d) ==> Valid(r)
  {
    if k in d.entries then Dict(d.order, d.entries[k := v])
    else Dict(d.order + [k], d.entries[k := v])
  }

  function Other<K(==)>(k: K): K -> bool {
    x => x != k
  }

  /** `d.pop(k, None)`. */
  function Pop<K(!new), V(!new)>(d: Dict<K, V>, k: K): (r: Dict<K, V>)
    ensures r.entries == d.entries - {k}
    ensures Valid(d) ==> Valid(r)
  {
    FilterDistinctWhenValid(d, k);
    Dict(Filter(Other(k), d.order), d.entries - {k})
  }

  lemma FilterDistinctWhenValid<K(!new), V(!new)>(d: Dict<K, V>, k: K)
    ensures Valid(d) ==> Distinct(Filter(Other(k), d.order))
  {
    if Valid(d) {
      FilterDistinct(Other(k), d.order);
    }
  }

  lemma PopAbsent<K(!new), V(!new)>(d: Dict<K, V>, k: K)
    requires Valid(d) && k !in d.entries
    ensures Pop(d, k) == d
  {
    assert k !in (set x | x in d.order);
    FilterAll(Other(k), d.order);
  }

  lemma PopSize<K(!new), V(!new)>(d: Dict<K, V>, k: K)
    requires Valid(d) && k in d.entries
    ensures |Pop(d, k).order| == |d.order| - 1
  {
    DistinctCount(d.order);
    FilterDistinctWhenValid(d, k);
    DistinctCount(Pop(d, k).order);
    assert (set x | x in Pop(d, k).order) == (set x | x in d.order) - {k};
  }

  /** `[entries[k] for k in keys]`. */
  function Select<K(!new), V(!new)>(keys: seq<K>, entries: map<K, V>): (r: seq<V>)
    requires forall k | k in keys :: k in entries
    ensures |r| == |keys|
    ensures forall i | 0 <= i < |r| :: r[i] == entries[keys[i]]
  {
    seq(|keys|, i requires 0 <= i < |keys| => entries[keys[i]])
  }

  /** `list(d.values())`. */
  function Values<K(!new), V(!new)>(d: Dict<K, V>): (r: seq<V>)
    requires Valid(d)
    ensures |r| == |d.order|
  {
    assert forall k | k in d.order :: k in (set x | x in d.order);
    Select(d.order, d.entries)
  }

  /** Every value carries its own key, as the records of all services do. */
  ghost predicate Keyed<K(!new), V(!new)>(d: Dict<K, V>, keyOf: V -> K) {
    forall k | k in d.entries :: keyOf(d.entries[k]) == k
  }

  lemma ValuesMember<K(!new), V(!new)>(d: Dict<K, V>, keyOf: V -> K, v: V)
    requires Valid(d) && Keyed(d, keyOf)
    ensures v in Values(d) <==> keyOf(v) in d.entries && d.entries[keyOf(v)] == v
  {
    if keyOf(v) in d.entries && d.entries[keyOf(v)] == v {
      assert keyOf(v) in (set x | x in d.order);
      var i :| 0 <= i < |d.order| && d.order[i] == keyOf(v);
      assert Values(d)[i] == v;
    }
    if v in Values(d) {
      var i :| 0 <= i < |d.order| && Values(d)[i] == v;
      assert d.order[i] in (set x | x in d.order);
    }
  }

  lemma SelectSnoc<K(!new), V(!new)>(keys: seq<K>, last: K, entries: map<K, V>)
    requires last in entries && forall k | k in keys :: k in entries
    ensures Select(keys + [last], entries) == Select(keys, entries) + [entries[last]]
  {
  }

  lemma {:induction false} SelectFilter<K(!new), V(!new)>(
      keys: seq<K>, entries: map<K, V>, p: K -> bool, q: V -> bool)
    requires forall k | k in keys :: k in entries && p(k) == q(entries[k])
    ensures Select(Filter(p, keys), entries) == Filter(q, Select(keys, entries))
  {
    if keys != [] {
      var front, last := keys[..|keys| - 1], keys[|keys| - 1];
      assert keys == front + [last];
      SelectFilter(front, entries, p, q);
      SelectSnoc(front, last, entries);
      FilterSnoc(q, Select(front, entries), entries[last]);
      if p(last) {
        SelectSnoc(Filter(p, front), last, entries);
      }
    }
  }

  lemma ValuesPutNew<K(!new), V(!new)>(d: Dict<K, V>, k: K, v: V)
    requires Valid(d) && k !in d.entries
    ensures Values(Put(d, k, v)) == Values(d) + [v]
  {
    assert forall x | x in d.order :: x in (set y | y in d.order);
  }

  lemma ValuesPutOld<K(!new), V(!new)>(d: Dict<K, V>, i: nat, v: V)
    requires Valid(d) && i < |d.order|
    ensures Values(Put(d, d.order[i], v)) == Values(d)[i := v]
  {
    assert d.order[i] in (set y | y in d.order);
  }

  lemma ValuesPop<K(!new), V(!new)>(d: Dict<K, V>, k: K, keep: V -> bool)
    requires Valid(d)
    requires forall x | x in d.entries :: keep(d.entries[x]) <==> x != k
    ensures Values(Pop(d, k)) == Filter(keep, Values(d))
  {
    assert forall x | x in d.order :: x in (set y | y in d.order);
    SelectFilter(d.order, d.entries, Other(k), keep);
    var rest := Filter(Other(k), d.order);
    assert Select(rest, d.entries - {k}) == Select(rest, d.entries);
  }

  // ---------- iteration in key order ----------

  /** `[d[k] for k in sorted(d.keys())]`. */
  function SortedValues<K(!new), V(!new)>(d: Dict<K, V>, le: (K, K) -> bool): (r: seq<V>)
    requires Valid(d)
    ensures |r| == |d.order|
  {
    assert forall k | k in Sort(le, d.order) :: k in (set x | x in d.order);
    Select(Sort(le, d.order), d.entries)
  }

  lemma SortedValuesMember<K(!new), V(!new)>(d: Dict<K, V>, le: (K, K) -> bool, keyOf: V -> K, v: V)
    requires Valid(d) && Keyed(d, keyOf)
    ensures v in SortedValues(d, le) <==> keyOf(v) in d.entries && d.entries[keyOf(v)] == v
  {
    var keys := Sort(le, d.order);
    if keyOf(v) in d.entries && d.entries[keyOf(v)] == v {
      assert keyOf(v) in (set x | x in d.order);
      var i :| 0 <= i < |keys| && keys[i] == keyOf(v);
      assert SortedValues(d, le)[i] == v;
    }
    if v in SortedValues(d, le) {
      var i :| 0 <= i < |keys| && SortedValues(d, le)[i] == v;
      assert keys[i] in keys && keys[i] in d.order;
      assert keys[i] in (set x | x in d.order);
    }
  }

  lemma SortedValuesDistinct<K(!new), V(!new)>(d: Dict<K, V>, le: (K, K) -> bool, keyOf: V -> K)
    requires Valid(d) && Keyed(d, keyOf)
    ensures Distinct(SortedValues(d, le))
  {
    var keys := Sort(le, d.order);
    SortDistinct(le, d.order);
    forall i | 0 <= i < |keys| ensures keys[i] in d.entries {
      assert keys[i] in keys && keys[i] in d.order;
      assert keys[i] in (set x | x in d.order);
    }
  }

  // ---------- cutting a history down to its newest entries ----------

  function KeysOf<K(==, !new), V(==, !new)>(values: seq<V>, keyOf: V -> K): set<K> {
    set v | v in values :: keyOf(v)
  }

  function KeySeq<K(!new), V(!new)>(values: seq<V>, keyOf: V -> K): (r: seq<K>)
    ensures |r| == |values|
    ensures forall i | 0 <= i < |r| :: r[i] == keyOf(values[i])
  {
    seq(|values|, i requires 0 <= i < |values| => keyOf(values[i]))
  }

  function In<K(==, !new)>(keys: set<K>): K -> bool {
    k => k in keys
  }

  /**
   Keeps the entries of the first `limit` values under the order `newer`, without
   changing their places.
   */
  function KeepNewest<K(==, !new), V(==, !new)>(
      d: Dict<K, V>, newer: (V, V) -> bool, keyOf: V -> K, limit: nat): (r: Dict<K, V>)
    requires Valid(d)
  {
    if |d.order| <= limit then d
    else
      var keep := KeysOf(Sort(newer, Values(d))[..limit], keyOf);
      Dict(Filter(In(keep), d.order), map k | k in d.entries && k in keep :: d.entries[k])
  }

  lemma KeepNewestSize<K(!new), V(!new)>(
      d: Dict<K, V>, newer: (V, V) -> bool, keyOf: V -> K, limit: nat)
    requires Valid(d) && Keyed(d, keyOf)
    ensures var r := KeepNewest(d, newer, keyOf, limit);
      && Valid(r) && Keyed(r, keyOf)
      && |r.order| == (if |d.order| <= limit then |d.order| else limit)
  {
    if |d.order| > limit {
      var sorted := Sort(newer, Values(d));
      TopKeys(d, keyOf, sorted, limit);
      var keep := KeysOf(sorted[..limit], keyOf);
      FilterDistinct(In(keep), d.order);
      assert (set k | k in Filter(In(keep), d.order)) == keep;
      DistinctCount(Filter(In(keep), d.order));
    }
  }

  /** Keeping drops entries and changes nothing else: not the rest, and not their order. */
  lemma KeepNewestKeeps<K(!new), V(!new)>(d: Dict<K, V>, newer: (V, V) -> bool, keyOf: V -> K, limit: nat)
    requires Valid(d)
    ensures var r := KeepNewest(d, newer, keyOf, limit);
      && (forall k | k in r.entries :: k in d.entries && r.entries[k] == d.entries[k])
      && r.order == Filter(In(r.entries.Keys), d.order)
  {
    assert forall k | k in d.order :: k in (set x | x in d.order);
    var r := KeepNewest(d, newer, keyOf, limit);
    if |d.order| <= limit {
      FilterAll(In(r.entries.Keys), d.order);
    } else {
      FilterAgree(In(KeysOf(Sort(newer, Values(d))[..limit], keyOf)), In(r.entries.Keys), d.order);
    }
  }

  lemma TopKeys<K(!new), V(!new)>(d: Dict<K, V>, keyOf: V -> K, sorted: seq<V>, limit: nat)
    requires Valid(d) && Keyed(d, keyOf)
    requires multiset(sorted) == multiset(Values(d)) && limit <= |sorted|
    ensures KeysOf(sorted[..limit], keyOf) <= d.entries.Keys
    ensures |KeysOf(sorted[..limit], keyOf)| == limit
  {
    ValuesKeysDistinct(d, keyOf, sorted);
    var top := sorted[..limit];
    var keys := seq(limit, i requires 0 <= i < limit => keyOf(top[i]));
    DistinctCount(keys);
    assert forall i | 0 <= i < limit :: keys[i] == keyOf(top[i]);
    assert (set k | k in keys) == KeysOf(top, keyOf);
    forall v | v in top ensures keyOf(v) in d.entries {
      assert v in multiset(sorted);
      ValuesMember(d, keyOf, v);
    }
  }

  /** What is kept is at least as new as anything that is dropped. */
  lemma KeepNewestKeepsNewest<K(!new), V(!new)>(
      d: Dict<K, V>, newer: (V, V) -> bool, keyOf: V -> K, limit: nat, kept: K, dropped: K)
    requires Valid(d) && Keyed(d, keyOf) && TotalPreorder(newer)
    requires kept in KeepNewest(d, newer, keyOf, limit).entries
    requires dropped in d.entries && dropped !in KeepNewest(d, newer, keyOf, limit).entries
    ensures newer(d.entries[kept], d.entries[dropped])
  {
    var sorted := Sort(newer, Values(d));
    SortSorts(newer, Values(d));
    ValuesMember(d, keyOf, d.entries[dropped]);
    var top := sorted[..limit];
    assert kept in KeysOf(top, keyOf) && dropped !in KeysOf(top, keyOf);
    var v :| v in top && keyOf(v) == kept;
    assert v in sorted;
    ValuesMember(d, keyOf, v);
    assert v in sorted[..limit] && d.entries[dropped] in sorted && d.entries[dropped] !in top;
  }

  /** Keeps the same entries, but lists them newest first, as rebuilding from sorted items does. */
  function TrimToNewest<K(==, !new), V(==, !new)>(
      d: Dict<K, V>, newer: (V, V) -> bool, keyOf: V -> K, limit: nat): (r: Dict<K, V>)
    requires Valid(d)
  {
    if |d.order| <= limit then d
    else
      var top := Sort(newer, Values(d))[..limit];
      Dict(KeySeq(top, keyOf), KeepNewest(d, newer, keyOf, limit).entries)
  }

  /** A trimmed dictionary is well-formed and lists the newest values, newest first. */
  lemma TrimmedValues<K(!new), V(!new)>(d: Dict<K, V>, newer: (V, V) -> bool, keyOf: V -> K, limit: nat)
    requires Valid(d) && Keyed(d, keyOf)
    ensures var r := TrimToNewest(d, newer, keyOf, limit);
      && Valid(r) && Keyed(r, keyOf)
      && |r.order| == (if |d.order| <= limit then |d.order| else limit)
      && Values(r) == if |d.order| <= limit then Values(d) else Sort(newer, Values(d))[..limit]
  {
    hide KeepNewest, Sort, Values;
    if |d.order| > limit {
      TrimmedKeys(d, newer, keyOf, limit);
      var top, r := Sort(newer, Values(d))[..limit], TrimToNewest(d, newer, keyOf, limit);
      ListedValues(r, top);
    }
  }

  lemma ListedValues<K(!new), V(!new)>(d: Dict<K, V>, values: seq<V>)
    requires Valid(d) && |values| == |d.order|
    requires forall i | 0 <= i < |values| :: d.order[i] in d.entries && d.entries[d.order[i]] == values[i]
    ensures Values(d) == values
  {
  }

  lemma TrimmedKeys<K(!new), V(!new)>(d: Dict<K, V>, newer: (V, V) -> bool, keyOf: V -> K, limit: nat)
    requires Valid(d) && Keyed(d, keyOf) && |d.order| > limit
    ensures var r, top := TrimToNewest(d, newer, keyOf, limit), Sort(newer, Values(d))[..limit];
      && Valid(r) && Keyed(r, keyOf) && |r.order| == limit
      && forall i | 0 <= i < limit :: r.order[i] in r.entries && r.entries[r.order[i]] == top[i]
  {
    hide Sort, Values, KeySeq, KeysOf, Filter;
    var sorted := Sort(newer, Values(d));
    TopKeys(d, keyOf, sorted, limit);
    ValuesKeysDistinct(d, keyOf, sorted);
    TopValues(d, keyOf, sorted);
    KeySeqSet(sorted[..limit], keyOf);
    assert forall i | 0 <= i < limit :: sorted[..limit][i] == sorted[i];
  }

  lemma KeySeqSet<K(!new), V(!new)>(values: seq<V>, keyOf: V -> K)
    ensures (set k | k in KeySeq(values, keyOf)) == KeysOf(values, keyOf)
    ensures forall v | v in values :: keyOf(v) in KeysOf(values, keyOf)
  {
    forall k | k in KeysOf(values, keyOf) ensures k in KeySeq(values, keyOf) {
      var v :| v in values && keyOf(v) == k;
      var i :| 0 <= i < |values| && values[i] == v;
      assert KeySeq(values, keyOf)[i] == k;
    }
  }

  lemma TopValues<K(!new), V(!new)>(d: Dict<K, V>, keyOf: V -> K, sorted: seq<V>)
    requires Valid(d) && Keyed(d, keyOf) && multiset(sorted) == multiset(Values(d))
    ensures forall i | 0 <= i < |sorted| :: keyOf(sorted[i]) in d.entries && d.entries[keyOf(sorted[i])] == sorted[i]
  {
    forall i | 0 <= i < |sorted| ensures keyOf(sorted[i]) in d.entries && d.entries[keyOf(sorted[i])] == sorted[i] {
      assert sorted[i] in multiset(sorted);
      ValuesMember(d, keyOf, sorted[i]);
    }
  }

  lemma TrimmedEntries<K(!new), V(!new)>(d: Dict<K, V>, newer: (V, V) -> bool, keyOf: V -> K, limit: nat)
    requires Valid(d)
    ensures forall k | k in TrimToNewest(d, newer, keyOf, limit).entries ::
              k in d.entries && TrimToNewest(d, newer, keyOf, limit).entries[k] == d.entries[k]
  {
  }

  lemma ValuesKeysDistinct<K(!new), V(!new)>(d: Dict<K, V>, keyOf: V -> K, values: seq<V>)
    requires Valid(d) && Keyed(d, keyOf)
    requires multiset(values) == multiset(Values(d))
    ensures forall i, j | 0 <= i < j < |values| :: keyOf(values[i]) != keyOf(values[j])
  {
    forall i, j | 0 <= i < j < |Values(d)| ensures Values(d)[i] != Values(d)[j] {
      assert d.order[i] in (set k | k in d.order) && d.order[j] in (set k | k in d.order);
    }
    DistinctIffSingle(Values(d));
    DistinctIffSingle(values);
    forall v | v in values ensures keyOf(v) in d.entries && d.entries[keyOf(v)] == v {
      assert v in multiset(values);
      ValuesMember(d, keyOf, v);
    }
  }
}
