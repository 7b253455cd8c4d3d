/** `defaultdict(list)` as the source uses it: rows by key, the keys in the order of
    their first appearance. */
module Grouping {

  function KeysOf<T, K(==)>(rows: seq<T>, key: T -> K): seq<K> {
    if rows == [] then []
    else
      var before, k := KeysOf(rows[..|rows| - 1], key), key(rows[|rows| - 1]);
      if k in before then before else before + [k]
  }

  function GroupOf<T, K(==)>(rows: seq<T>, key: T -> K, k: K): seq<T> {
    if rows == [] then []
    else GroupOf(rows[..|rows| - 1], key, k) + if key(rows[|rows| - 1]) == k then [rows[|rows| - 1]] else []
  }

  lemma {:induction false} KeysHaveGroups<T, K>(rows: seq<T>, key: T -> K, k: K)
    ensures k in KeysOf(rows, key) <==> GroupOf(rows, key, k) != []
  {
    if rows != [] { KeysHaveGroups(rows[..|rows| - 1], key, k); }
  }

  lemma {:induction false} GroupHas<T, K>(rows: seq<T>, key: T -> K, k: K, x: T)
    ensures x in GroupOf(rows, key, k) <==> x in rows && key(x) == k
  {
    if rows != [] { GroupHas(rows[..|rows| - 1], key, k, x); }
  }

  lemma {:induction false} KeysAreDistinct<T, K>(rows: seq<T>, key: T -> K)
    ensures forall i, j :: 0 <= i < j < |KeysOf(rows, key)| ==> KeysOf(rows, key)[i] != KeysOf(rows, key)[j]
  {
    if rows != [] { KeysAreDistinct(rows[..|rows| - 1], key); }
  }

  /** More rows only add at the end: keys and rows stand in the order in which they came. */
  lemma {:induction false} GroupsGrow<T, K>(rows: seq<T>, key: T -> K, k: K, n: nat)
    requires n <= |rows|
    ensures KeysOf(rows[..n], key) <= KeysOf(rows, key)
    ensures GroupOf(rows[..n], key, k) <= GroupOf(rows, key, k)
  {
    if n < |rows| {
      GroupsGrow(rows[..|rows| - 1], key, k, n);
      assert rows[..|rows| - 1][..n] == rows[..n];
    } else {
      assert rows[..n] == rows;
    }
  }

  /** A group has each of its rows as often as it came. */
  lemma {:induction false} GroupCounts<T, K>(rows: seq<T>, key: T -> K, k: K, x: T)
    ensures multiset(GroupOf(rows, key, k))[x] == if key(x) == k then multiset(rows)[x] else 0
  {
    if rows != [] {
      var init, last := rows[..|rows| - 1], rows[|rows| - 1];
      GroupCounts(init, key, k, x);
      assert rows == init + [last];
    }
  }

  method GroupByKey<T, K(==)>(rows: seq<T>, key: T -> K) returns (keys: seq<K>, groups: map<K, seq<T>>)
    ensures keys == KeysOf(rows, key)
    ensures forall k :: k in groups <==> k in keys
    ensures forall k :: k in groups ==> groups[k] == GroupOf(rows, key, k)
  {
    keys, groups := [], map[];
    for i := 0 to |rows|
      invariant keys == KeysOf(rows[..i], key)
      invariant forall k :: k in groups <==> k in keys
      invariant forall k :: k in groups ==> groups[k] == GroupOf(rows[..i], key, k)
    {
      var k := key(rows[i]);
      assert rows[..i + 1][..i] == rows[..i];
      KeysHaveGroups(rows[..i], key, k);
      var before := if k in groups then groups[k] else [];
      forall q | q in groups && q != k ensures GroupOf(rows[..i + 1], key, q) == groups[q] {}
      if k !in groups { keys := keys + [k]; }
      groups := groups[k := before + [rows[i]]];
    }
    assert rows[..|rows|] == rows;
  }
}
