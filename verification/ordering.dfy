/** What a `findMany` query does with a table: keep the rows that match its `where`, then
    put them in `orderBy` order. The database scans rows in an order of its own; `Select`
    stands for that scan and `SortBy` for the ordering. */
module Ordering {

  predicate SortedBy<T>(s: seq<T>, key: T -> int) {
    forall i, j :: 0 <= i < j < |s| ==> key(s[i]) <= key(s[j])
  }

  /** Inserts `x` before the first element whose key is not smaller. */
  function InsertBy<T>(x: T, s: seq<T>, key: T -> int): (r: seq<T>)
    requires SortedBy(s, key)
    ensures SortedBy(r, key)
    ensures multiset(r) == multiset(s) + multiset{x}
    ensures forall y :: y in r ==> y == x || y in s
  {
    if s == [] || key(x) <= key(s[0]) then
      HeadBelowAll(s, key);
      ConsSorted(x, s, key);
      [x] + s
    else
      var tail := InsertBy(x, s[1..], key);
      assert s == [s[0]] + s[1..];
      HeadBelowAll(s, key);
      ConsSorted(s[0], tail, key);
      [s[0]] + tail
  }

  /** The first key of a sorted sequence is the least. */
  lemma HeadBelowAll<T>(s: seq<T>, key: T -> int)
    requires SortedBy(s, key)
    ensures s != [] ==> forall y :: y in s ==> key(s[0]) <= key(y)
  {
    forall y | y in s ensures key(s[0]) <= key(y) {
      var k :| 0 <= k < |s| && s[k] == y;
    }
  }

  /** Putting an element no greater than any other in front keeps a sequence sorted. */
  lemma ConsSorted<T>(h: T, t: seq<T>, key: T -> int)
    requires SortedBy(t, key)
    requires forall y :: y in t ==> key(h) <= key(y)
    ensures SortedBy([h] + t, key)
  {
    var r := [h] + t;
    forall i, j | 0 <= i < j < |r| ensures key(r[i]) <= key(r[j]) {
      assert r[j] == t[j - 1] && t[j - 1] in t;
      if i > 0 {
        assert r[i] == t[i - 1];
      }
    }
  }

  /** Insertion sort on `key`, ascending; equal keys keep no particular order. */
  function SortBy<T(!new)>(s: seq<T>, key: T -> int): (r: seq<T>)
    ensures SortedBy(r, key)
    ensures multiset(r) == multiset(s)
    ensures |r| == |s| && forall x :: x in r <==> x in s
  {
    if s == [] then []
    else
      assert s == [s[0]] + s[1..];
      var r := InsertBy(s[0], SortBy(s[1..], key), key);
      SameMembers(r, s);
      r
  }

  lemma SameMembers<T>(a: seq<T>, b: seq<T>)
    requires multiset(a) == multiset(b)
    ensures |a| == |b| && forall x :: x in a <==> x in b
  {
    assert |a| == |multiset(a)|;
    forall x ensures x in a <==> x in b {
      assert x in a <==> x in multiset(a);
      assert x in b <==> x in multiset(b);
    }
  }

  /** The keys of the rows that satisfy `keep`. */
  ghost function KeysWhere<K, V>(m: map<K, V>, keep: V -> bool): set<K> {
    set k | k in m && keep(m[k])
  }

  /** A scan of table `m` that keeps the rows satisfying `keep`, one entry per key. */
  ghost function Select<K, V(!new)>(m: map<K, V>, keep: V -> bool): (r: seq<V>)
    ensures |r| == |KeysWhere(m, keep)|
    ensures forall v :: v in r <==> v in m.Values && keep(v)
    decreases m.Keys
  {
    if m.Keys == {} then
      assert KeysWhere(m, keep) == {};
      []
    else
      var k :| k in m;
      var rest := m - {k};
      assert rest.Keys < m.Keys;
      var tail := Select(rest, keep);
      RemoveKey(m, k, keep);
      if keep(m[k]) then [m[k]] + tail else tail
  }

  /** Taking key `k` out of `m` takes its value out of the scan and `k` out of the
      matching keys. */
  lemma RemoveKey<K, V(!new)>(m: map<K, V>, k: K, keep: V -> bool)
    requires k in m
    ensures forall v :: v in m.Values <==> v == m[k] || v in (m - {k}).Values
    ensures keep(m[k]) ==> |KeysWhere(m, keep)| == |KeysWhere(m - {k}, keep)| + 1
    ensures !keep(m[k]) ==> KeysWhere(m, keep) == KeysWhere(m - {k}, keep)
  {
    var rest := m - {k};
    forall v | v in m.Values ensures v == m[k] || v in rest.Values {
      var k' :| k' in m && m[k'] == v;
      if k' != k {
        assert rest[k'] == v;
      }
    }
    if keep(m[k]) {
      assert KeysWhere(m, keep) == KeysWhere(rest, keep) + {k};
      assert k !in KeysWhere(rest, keep);
    } else {
      assert KeysWhere(m, keep) == KeysWhere(rest, keep);
    }
  }

  /** `findMany({ where: keep, orderBy: key })`: the matching rows, one per key, ordered by
      `key` ascending. */
  ghost function FindMany<K, V(!new)>(m: map<K, V>, keep: V -> bool, key: V -> int): (r: seq<V>)
    ensures |r| == |KeysWhere(m, keep)|
    ensures forall v :: v in r <==> v in m.Values && keep(v)
    ensures SortedBy(r, key)
  {
    SortBy(Select(m, keep), key)
  }
}
