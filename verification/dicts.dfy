/** Python's `dict`: a finite map whose keys remember the order in which they
    were first inserted. The server keeps its rooms, its players and each
    room's members in such dicts, and that order is observable: the first
    member of a room plays X, `join_random_room` takes the first open room,
    and `disconnect` removes the first player registered for a connection. */
module Dicts {

  /** The representation: the keys in insertion order, and the mapping. */
  datatype OrderedMap<K(==,!new), V> = OrderedMap(keys: seq<K>, entries: map<K, V>)

  ghost predicate Distinct<K>(s: seq<K>)
  {
    forall i, j :: 0 <= i < j < |s| ==> s[i] != s[j]
  }

  /** `x` occurs in `s` somewhere before `y`. */
  ghost predicate Before<K>(s: seq<K>, x: K, y: K)
  {
    exists a, b :: 0 <= a < b < |s| && s[a] == x && s[b] == y
  }

  /** `r` lists its elements in the order they have in `s`. */
  ghost predicate KeepsOrder<K>(r: seq<K>, s: seq<K>)
  {
    forall i, j :: 0 <= i < j < |r| ==> Before(s, r[i], r[j])
  }

  lemma {:induction false} BeforeInTail<K>(s: seq<K>, x: K, y: K)
    requires |s| > 0 && Before(s[1..], x, y)
    ensures Before(s, x, y)
  {
    var a, b :| 0 <= a < b < |s[1..]| && s[1..][a] == x && s[1..][b] == y;
    assert s[a + 1] == x && s[b + 1] == y;
  }

  lemma {:induction false} BeforeFromHead<K>(s: seq<K>, y: K)
    requires |s| > 0 && y in s[1..]
    ensures Before(s, s[0], y)
  {
    var b :| 0 <= b < |s[1..]| && s[1..][b] == y;
    assert s[b + 1] == y;
  }

  /** Every key listed once, and exactly the keys of the mapping. */
  ghost predicate Valid<K(!new), V>(m: OrderedMap<K, V>)
  {
    && Distinct(m.keys)
    && (forall k :: k in m.entries <==> k in m.keys)
  }

  type Dict<K(==,!new), V> = m: OrderedMap<K, V> | Valid(m) witness OrderedMap([], map[])

  function Empty<K(==,!new), V>(): (d: Dict<K, V>)
    ensures d.keys == [] && d.entries == map[]
  {
    OrderedMap([], map[])
  }

  lemma {:induction false} DistinctCardinality<K>(s: seq<K>)
    requires Distinct(s)
    ensures |set x | x in s| == |s|
  {
    if |s| > 0 {
      DistinctCardinality(s[1..]);
      assert (set x | x in s) == (set x | x in s[1..]) + {s[0]};
      assert s[0] !in s[1..] by {
        forall i | 0 <= i < |s[1..]| ensures s[1..][i] != s[0] {
          assert s[1..][i] == s[i + 1];
        }
      }
    }
  }

  /** `len(d)`: the number of entries. */
  function Len<K(==,!new), V>(d: Dict<K, V>): (n: nat)
    ensures n == |d.entries|
  {
    DistinctCardinality(d.keys);
    assert d.entries.Keys == set x | x in d.keys;
    |d.keys|
  }

  /** `d[k] = v`: a new key goes to the end; an existing key keeps its place. */
  function Put<K(==,!new), V>(d: Dict<K, V>, k: K, v: V): (r: Dict<K, V>)
    ensures k in r.entries && r.entries[k] == v
    ensures forall j :: j != k ==> (j in r.entries <==> j in d.entries)
    ensures forall j :: j != k && j in d.entries ==> r.entries[j] == d.entries[j]
    ensures k in d.entries ==> r.keys == d.keys
    ensures k !in d.entries ==> r.keys == d.keys + [k]
  {
    if k in d.entries then
      OrderedMap(d.keys, d.entries[k := v])
    else
      var r := OrderedMap(d.keys + [k], d.entries[k := v]);
      assert Distinct(r.keys) by {
        forall i, j | 0 <= i < j < |r.keys| ensures r.keys[i] != r.keys[j] {
          if j == |d.keys| {
            assert r.keys[i] == d.keys[i];
          }
        }
      }
      r
  }

  /** `s` with every occurrence of `k` dropped, the rest in order. */
  function Without<K(==,!new)>(s: seq<K>, k: K): (r: seq<K>)
    ensures forall x :: x in r <==> x in s && x != k
    ensures Distinct(s) ==> Distinct(r)
    ensures |r| <= |s|
  {
    if |s| == 0 then []
    else if s[0] == k then Without(s[1..], k)
    else
      var rest := Without(s[1..], k);
      assert Distinct(s) ==> s[0] !in s[1..] by {
        if Distinct(s) {
          forall i | 0 <= i < |s[1..]| ensures s[1..][i] != s[0] {
            assert s[1..][i] == s[i + 1];
          }
        }
      }
      assert Distinct(s) ==> Distinct([s[0]] + rest) by {
        if Distinct(s) {
          assert Distinct(s[1..]) by {
            forall i, j | 0 <= i < j < |s[1..]| ensures s[1..][i] != s[1..][j] {
              assert s[1..][i] == s[i + 1] && s[1..][j] == s[j + 1];
            }
          }
          forall i, j | 0 <= i < j < |[s[0]] + rest| ensures ([s[0]] + rest)[i] != ([s[0]] + rest)[j] {
            if i == 0 {
              assert ([s[0]] + rest)[j] == rest[j - 1];
              assert rest[j - 1] in rest;
            } else {
              assert ([s[0]] + rest)[i] == rest[i - 1] && ([s[0]] + rest)[j] == rest[j - 1];
            }
          }
        }
      }
      [s[0]] + rest
  }

  /** Deleting the one occurrence of a key from a list of distinct keys closes
      the gap it leaves and keeps everything else in its order. */
  lemma {:induction false} WithoutDeletesInPlace<K(!new)>(s: seq<K>, i: nat)
    requires Distinct(s) && i < |s|
    ensures Without(s, s[i]) == s[..i] + s[i + 1..]
  {
    var k := s[i];
    assert Distinct(s[1..]) by {
      forall a, b | 0 <= a < b < |s[1..]| ensures s[1..][a] != s[1..][b] {
        assert s[1..][a] == s[a + 1] && s[1..][b] == s[b + 1];
      }
    }
    if i == 0 {
      assert k !in s[1..] by {
        forall a | 0 <= a < |s[1..]| ensures s[1..][a] != k {
          assert s[1..][a] == s[a + 1];
        }
      }
      WithoutAbsent(s[1..], k);
      assert s[..0] + s[1..] == s[1..];
    } else {
      assert s[0] != k;
      assert s[1..][i - 1] == k;
      WithoutDeletesInPlace(s[1..], i - 1);
      assert s[..i] == [s[0]] + s[1..][..i - 1];
      assert s[i + 1..] == s[1..][i..];
    }
  }

  lemma {:induction false} WithoutAbsent<K(!new)>(s: seq<K>, k: K)
    requires k !in s
    ensures Without(s, k) == s
  {
    if |s| > 0 {
      assert s[1..] + [] == s[1..];
      assert k !in s[1..] by {
        forall a | 0 <= a < |s[1..]| ensures s[1..][a] != k {
          assert s[1..][a] == s[a + 1];
        }
      }
      WithoutAbsent(s[1..], k);
      assert [s[0]] + s[1..] == s;
    }
  }

  /** `del d[k]` when `k` is present; nothing when it is absent. */
  function Remove<K(==,!new), V>(d: Dict<K, V>, k: K): (r: Dict<K, V>)
    ensures k !in r.entries
    ensures forall j :: j != k ==> (j in r.entries <==> j in d.entries)
    ensures forall j :: j in r.entries ==> j in d.entries && r.entries[j] == d.entries[j]
    ensures k !in d.entries ==> r == d
    ensures k in d.entries ==> Len(r) + 1 == Len(d)
    ensures forall i :: 0 <= i < |d.keys| && d.keys[i] == k ==> r.keys == d.keys[..i] + d.keys[i + 1..]
  {
    if k in d.entries then
      var r := OrderedMap(Without(d.keys, k), d.entries - {k});
      assert Valid(r);
      assert forall i :: 0 <= i < |d.keys| && d.keys[i] == k ==> r.keys == d.keys[..i] + d.keys[i + 1..] by {
        forall i | 0 <= i < |d.keys| && d.keys[i] == k ensures r.keys == d.keys[..i] + d.keys[i + 1..] {
          WithoutDeletesInPlace(d.keys, i);
        }
      }
      r
    else
      d
  }

  /** The keys `k` of `keys` whose entry passes `keep`, in order. */
  function FilterKeys<K(==,!new), V>(keys: seq<K>, entries: map<K, V>, keep: (K, V) -> bool): (r: seq<K>)
    requires forall k :: k in keys ==> k in entries
    ensures forall k :: k in r <==> k in keys && keep(k, entries[k])
    ensures Distinct(keys) ==> Distinct(r)
  {
    if |keys| == 0 then []
    else
      var rest := FilterKeys(keys[1..], entries, keep);
      if !keep(keys[0], entries[keys[0]]) then rest
      else
        assert Distinct(keys) ==> Distinct([keys[0]] + rest) by {
          if Distinct(keys) {
            assert Distinct(keys[1..]) by {
              forall i, j | 0 <= i < j < |keys[1..]| ensures keys[1..][i] != keys[1..][j] {
                assert keys[1..][i] == keys[i + 1] && keys[1..][j] == keys[j + 1];
              }
            }
            assert keys[0] !in keys[1..] by {
              forall i | 0 <= i < |keys[1..]| ensures keys[1..][i] != keys[0] {
                assert keys[1..][i] == keys[i + 1];
              }
            }
            forall i, j | 0 <= i < j < |[keys[0]] + rest| ensures ([keys[0]] + rest)[i] != ([keys[0]] + rest)[j] {
              if i == 0 {
                assert ([keys[0]] + rest)[j] == rest[j - 1];
                assert rest[j - 1] in rest;
              } else {
                assert ([keys[0]] + rest)[i] == rest[i - 1] && ([keys[0]] + rest)[j] == rest[j - 1];
              }
            }
          }
        }
        [keys[0]] + rest
  }

  /** Filtering keeps the relative order of the keys it keeps. */
  lemma {:induction false} FilterKeysKeepsOrder<K(!new), V>(keys: seq<K>, entries: map<K, V>, keep: (K, V) -> bool)
    requires forall k :: k in keys ==> k in entries
    ensures KeepsOrder(FilterKeys(keys, entries, keep), keys)
  {
    if |keys| > 0 {
      assert forall k :: k in keys[1..] ==> k in keys;
      FilterKeysKeepsOrder(keys[1..], entries, keep);
      var rest := FilterKeys(keys[1..], entries, keep);
      assert KeepsOrder(rest, keys[1..]);
      var r := FilterKeys(keys, entries, keep);
      forall i, j | 0 <= i < j < |r| ensures Before(keys, r[i], r[j]) {
        if !keep(keys[0], entries[keys[0]]) {
          assert r == rest;
          assert Before(keys[1..], rest[i], rest[j]);
          BeforeInTail(keys, r[i], r[j]);
        } else {
          assert r == [keys[0]] + rest;
          assert r[j] == rest[j - 1];
          if i == 0 {
            assert rest[j - 1] in rest;
            BeforeFromHead(keys, r[j]);
          } else {
            assert r[i] == rest[i - 1];
            assert Before(keys[1..], rest[i - 1], rest[j - 1]);
            BeforeInTail(keys, r[i], r[j]);
          }
        }
      }
    }
  }

  /** The entries of `d` that pass `keep`, in their original order: what
      remains after deleting every entry that fails it. */
  function Filter<K(==,!new), V>(d: Dict<K, V>, keep: (K, V) -> bool): (r: Dict<K, V>)
    ensures forall k :: k in r.entries <==> k in d.entries && keep(k, d.entries[k])
    ensures forall k :: k in r.entries ==> r.entries[k] == d.entries[k]
    ensures KeepsOrder(r.keys, d.keys)
  {
    var keys := FilterKeys(d.keys, d.entries, keep);
    FilterKeysKeepsOrder(d.keys, d.entries, keep);
    var entries := map k | k in d.entries && keep(k, d.entries[k]) :: d.entries[k];
    OrderedMap(keys, entries)
  }

  /** How many entries of `d` pass `keep`, counted along the key order. */
  function CountKeys<K(==,!new), V>(keys: seq<K>, entries: map<K, V>, keep: (K, V) -> bool): nat
    requires forall k :: k in keys ==> k in entries
  {
    if |keys| == 0 then 0
    else (if keep(keys[0], entries[keys[0]]) then 1 else 0) + CountKeys(keys[1..], entries, keep)
  }

  function Count<K(==,!new), V>(d: Dict<K, V>, keep: (K, V) -> bool): nat
  {
    CountKeys(d.keys, d.entries, keep)
  }

  /** The keys of the entries of `d` that pass `keep`. */
  ghost function Passing<K(!new), V>(d: Dict<K, V>, keep: (K, V) -> bool): (ks: set<K>)
    ensures forall k :: k in ks <==> k in d.entries && keep(k, d.entries[k])
  {
    set k | k in d.entries && keep(k, d.entries[k])
  }

  /** Counting along the key order counts each passing entry exactly once. */
  lemma {:induction false} CountKeysIsCardinality<K(!new), V>(keys: seq<K>, entries: map<K, V>, keep: (K, V) -> bool)
    requires forall k :: k in keys ==> k in entries
    requires Distinct(keys)
    ensures CountKeys(keys, entries, keep) == |set k | k in keys && keep(k, entries[k])|
  {
    if |keys| > 0 {
      var tail := keys[1..];
      assert Distinct(tail) by {
        forall i, j | 0 <= i < j < |tail| ensures tail[i] != tail[j] {
          assert tail[i] == keys[i + 1] && tail[j] == keys[j + 1];
        }
      }
      assert keys[0] !in tail by {
        forall i | 0 <= i < |tail| ensures tail[i] != keys[0] {
          assert tail[i] == keys[i + 1];
        }
      }
      CountKeysIsCardinality(tail, entries, keep);
      var all := set k | k in keys && keep(k, entries[k]);
      var rest := set k | k in tail && keep(k, entries[k]);
      if keep(keys[0], entries[keys[0]]) {
        assert all == rest + {keys[0]};
      } else {
        assert all == rest;
      }
    }
  }

  /** The count of `d` is the number of its entries that pass `keep`. */
  lemma CountIsCardinality<K(!new), V>(d: Dict<K, V>, keep: (K, V) -> bool)
    ensures Count(d, keep) == |Passing(d, keep)|
  {
    CountKeysIsCardinality(d.keys, d.entries, keep);
    assert (set k | k in d.keys && keep(k, d.entries[k])) == Passing(d, keep);
  }

  /** Inserting a new key and deleting it again gives back the same dict,
      key order included. */
  lemma {:induction false} PutThenRemove<K(!new), V>(d: Dict<K, V>, k: K, v: V)
    requires k !in d.entries
    ensures Remove(Put(d, k, v), k) == d
  {
    var p := Put(d, k, v);
    assert p.keys == d.keys + [k];
    WithoutDeletesInPlace(p.keys, |d.keys|);
    assert p.keys[..|d.keys|] + p.keys[|d.keys| + 1..] == d.keys;
    assert p.entries - {k} == d.entries;
  }

  lemma {:induction false} FilterKeysTwice<K(!new), V>(keys: seq<K>, entries: map<K, V>, entries': map<K, V>, keep: (K, V) -> bool)
    requires forall k :: k in keys ==> k in entries
    requires forall k :: k in keys && keep(k, entries[k]) ==> k in entries' && entries'[k] == entries[k]
    ensures forall k :: k in FilterKeys(keys, entries, keep) ==> k in entries'
    ensures FilterKeys(FilterKeys(keys, entries, keep), entries', keep) == FilterKeys(keys, entries, keep)
  {
    if |keys| > 0 {
      assert forall k :: k in keys[1..] ==> k in keys;
      FilterKeysTwice(keys[1..], entries, entries', keep);
      var rest := FilterKeys(keys[1..], entries, keep);
      if keep(keys[0], entries[keys[0]]) {
        assert FilterKeys(keys, entries, keep) == [keys[0]] + rest;
        assert ([keys[0]] + rest)[1..] == rest;
      }
    }
  }

  lemma {:induction false} FilterTwiceKeys<K(!new), V>(d: Dict<K, V>, keep: (K, V) -> bool)
    ensures Filter(Filter(d, keep), keep).keys == Filter(d, keep).keys
  {
    var f := Filter(d, keep);
    assert f.keys == FilterKeys(d.keys, d.entries, keep);
    FilterKeysTwice(d.keys, d.entries, f.entries, keep);
  }

  lemma {:induction false} FilterTwiceEntries<K(!new), V>(d: Dict<K, V>, keep: (K, V) -> bool)
    ensures Filter(Filter(d, keep), keep).entries == Filter(d, keep).entries
  {
    var f := Filter(d, keep);
    var f2 := Filter(f, keep);
    assert forall k :: k in f2.entries <==> k in f.entries;
  }

  /** Filtering is idempotent: a second pass with the same test keeps
      everything the first kept, in the same order. */
  lemma {:induction false} FilterTwice<K(!new), V>(d: Dict<K, V>, keep: (K, V) -> bool)
    ensures Filter(Filter(d, keep), keep) == Filter(d, keep)
  {
    FilterTwiceKeys(d, keep);
    FilterTwiceEntries(d, keep);
  }
}
