/**
 * The in-memory storage behind the repositories: rows by key, with the keys
 * kept newest first (the listings of the persistence layer are ordered by
 * descending creation time).
 */
module Tables {
  import opened Wrappers

  datatype Table<K, V> = Table(rows: map<K, V>, order: seq<K>)

  /** No key occurs twice. */
  predicate Distinct<K(==)>(s: seq<K>) {
    forall i, j :: 0 <= i < j < |s| ==> s[i] != s[j]
  }

  /** The order lists every stored key exactly once. */
  predicate Valid<K(==,!new), V>(t: Table<K, V>) {
    && Distinct(t.order)
    && (forall k :: k in t.rows ==> k in t.order)
    && (forall k :: k in t.order ==> k in t.rows)
  }

  function Empty<K(==,!new), V>(): (t: Table<K, V>)
    ensures Valid(t) && t.rows == map[]
  {
    Table(map[], [])
  }

  /**
   * Insert or replace the row under `k`. A new key becomes the newest; a key
   * already present keeps its place.
   */
  function Upsert<K(==,!new), V>(t: Table<K, V>, k: K, v: V): (r: Table<K, V>)
    requires Valid(t)
    ensures Valid(r)
    ensures r.rows == t.rows[k := v]
    ensures r.order == if k in t.rows then t.order else [k] + t.order
  {
    if k in t.rows then Table(t.rows[k := v], t.order)
    else Table(t.rows[k := v], [k] + t.order)
  }

  /** `s` without `k`, the other keys in their order. */
  function Erased<K(==,!new)>(s: seq<K>, k: K): (r: seq<K>)
    ensures forall x :: x in r <==> x in s && x != k
    ensures Distinct(s) ==> Distinct(r)
  {
    if s == [] then []
    else if s[0] == k then Erased(s[1..], k)
    else
      var rest := Erased(s[1..], k);
      assert Distinct(s) ==> s[0] !in s[1..];
      [s[0]] + rest
  }

  /** Remove the row under `k`, if there is one. */
  function Remove<K(==,!new), V>(t: Table<K, V>, k: K): (r: Table<K, V>)
    requires Valid(t)
    ensures Valid(r)
    ensures r.rows == t.rows - {k}
  {
    Table(t.rows - {k}, Erased(t.order, k))
  }

  /** The stored rows, newest first. */
  function Values<K(==,!new), V>(t: Table<K, V>): (r: seq<V>)
    requires Valid(t)
    ensures |r| == |t.order|
    ensures forall i :: 0 <= i < |r| ==> t.order[i] in t.rows && r[i] == t.rows[t.order[i]]
  {
    seq(|t.order|, i requires 0 <= i < |t.order| => t.rows[t.order[i]])
  }

  /** Every stored row is listed. */
  lemma ValuesComplete<K(!new), V>(t: Table<K, V>, k: K)
    requires Valid(t) && k in t.rows
    ensures t.rows[k] in Values(t)
  {
    var i :| 0 <= i < |t.order| && t.order[i] == k;
    assert Values(t)[i] == t.rows[k];
  }

  /** The listed rows are exactly the stored ones. */
  lemma InValues<K(!new), V(!new)>(t: Table<K, V>)
    requires Valid(t)
    ensures forall v :: v in Values(t) <==> v in t.rows.Values
  {
    forall v | v in t.rows.Values
      ensures v in Values(t)
    {
      var k :| k in t.rows && t.rows[k] == v;
      ValuesComplete(t, k);
    }
  }

  function Min(a: int, b: int): int {
    if a < b then a else b
  }

  /**
   * `s[offset:offset + limit]` for non-negative bounds: at most `limit`
   * consecutive elements starting at `offset`.
   */
  function Page<V>(s: seq<V>, limit: nat, offset: nat): (r: seq<V>)
    ensures |r| == if offset >= |s| then 0 else Min(limit, |s| - offset)
    ensures forall i :: 0 <= i < |r| ==> r[i] == s[offset + i]
    ensures forall x :: x in r ==> x in s
  {
    if offset >= |s| then [] else s[offset..offset + Min(limit, |s| - offset)]
  }

  /** Two adjacent pages make up the page that spans both. */
  lemma PagesAdjoin<V>(s: seq<V>, a: nat, b: nat, offset: nat)
    ensures Page(s, a, offset) + Page(s, b, offset + a) == Page(s, a + b, offset)
  {
    var p, q, r := Page(s, a, offset), Page(s, b, offset + a), Page(s, a + b, offset);
    assert |p + q| == |r|;
    forall i | 0 <= i < |r|
      ensures (p + q)[i] == r[i]
    {
      if i >= |p| {
        assert (p + q)[i] == q[i - |p|];
      }
    }
  }

  /** `r` is `s` with some elements left out and the rest in their order. */
  predicate Subsequence<V(==)>(r: seq<V>, s: seq<V>)
    decreases |s|
  {
    if r == [] then true
    else if s == [] then false
    else if r[0] == s[0] then Subsequence(r[1..], s[1..])
    else Subsequence(r, s[1..])
  }

  /**
   * The elements of `s` that satisfy `p`, in their order: each one as often
   * as in `s`, and no other.
   */
  function Filter<V(!new)>(s: seq<V>, p: V -> bool): (r: seq<V>)
    ensures |r| <= |s|
    ensures forall x :: multiset(r)[x] == if p(x) then multiset(s)[x] else 0
    ensures Subsequence(r, s)
  {
    if s == [] then []
    else
      var rest := Filter(s[1..], p);
      assert s == [s[0]] + s[1..];
      if p(s[0]) then
        assert ([s[0]] + rest)[1..] == rest;
        [s[0]] + rest
      else
        assert rest != [] ==> multiset(rest)[rest[0]] > 0 && rest[0] != s[0];
        rest
  }

  /** Membership in a filtered sequence. */
  lemma InFilter<V(!new)>(s: seq<V>, p: V -> bool, x: V)
    ensures x in Filter(s, p) <==> x in s && p(x)
  {
    assert x in Filter(s, p) <==> multiset(Filter(s, p))[x] > 0;
    assert x in s <==> multiset(s)[x] > 0;
  }
}
