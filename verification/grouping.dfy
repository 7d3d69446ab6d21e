/**
 * Grouping values by key in order of first occurrence, as the analytics
 * page does with `acc.find(...)`/`acc.push(...)` over an array and with a
 * string-keyed object read back through `Object.entries`.
 */
module Grouping {
  import opened Wrappers

  datatype Group<K, V> = Group(key: K, values: seq<V>)

  /** The keys of the groups, in order. */
  function Keys<K, V>(gs: seq<Group<K, V>>): (r: seq<K>)
    ensures |r| == |gs| && forall i :: 0 <= i < |gs| ==> r[i] == gs[i].key
  {
    seq(|gs|, i requires 0 <= i < |gs| => gs[i].key)
  }

  /** No key occurs twice. */
  ghost predicate Distinct<K>(s: seq<K>) {
    forall i, j :: 0 <= i < j < |s| ==> s[i] != s[j]
  }

  /** The position of the group with key `k`, if any (the first, should there be several). */
  function KeyIndex<K(==), V>(gs: seq<Group<K, V>>, k: K): (r: Option<nat>)
    ensures r.Some? ==> r.value < |gs| && gs[r.value].key == k
    ensures r.None? <==> k !in Keys(gs)
  {
    if |gs| == 0 then None
    else if gs[0].key == k then Some(0)
    else
      assert Keys(gs) == [gs[0].key] + Keys(gs[1..]);
      match KeyIndex(gs[1..], k)
      case None => None
      case Some(i) => Some(i + 1)
  }

  /** Adds one value: to the existing group of its key, or as a new last group. */
  function Insert<K(==), V>(gs: seq<Group<K, V>>, k: K, v: V): seq<Group<K, V>> {
    match KeyIndex(gs, k)
    case Some(i) => gs[i := Group(k, gs[i].values + [v])]
    case None => gs + [Group(k, [v])]
  }

  /** Every item inserted in turn, first to last. */
  function GroupBy<K(==), V>(items: seq<(K, V)>): seq<Group<K, V>> {
    if |items| == 0 then []
    else Insert(GroupBy(items[..|items| - 1]), items[|items| - 1].0, items[|items| - 1].1)
  }

  function ItemKeys<K, V>(items: seq<(K, V)>): (r: seq<K>)
    ensures |r| == |items| && forall i :: 0 <= i < |items| ==> r[i] == items[i].0
  {
    seq(|items|, i requires 0 <= i < |items| => items[i].0)
  }

  /** The reference order of keys: each one at its first occurrence. */
  function Dedupe<K(==)>(s: seq<K>): seq<K> {
    if |s| == 0 then []
    else
      var d := Dedupe(s[..|s| - 1]);
      if s[|s| - 1] in d then d else d + [s[|s| - 1]]
  }

  /** Deduplication keeps exactly the keys that occur, each once. */
  lemma {:induction false} DedupeSpec<K>(s: seq<K>)
    ensures Distinct(Dedupe(s))
    ensures forall x :: x in Dedupe(s) <==> x in s
    decreases |s|
  {
    if |s| > 0 {
      DedupeSpec(s[..|s| - 1]);
      assert forall x :: x in s <==> x in s[..|s| - 1] || x == s[|s| - 1] by {
        assert s == s[..|s| - 1] + [s[|s| - 1]];
      }
    }
  }

  /** The values of the items with key `k`, in order. */
  function ValuesFor<K(==), V>(items: seq<(K, V)>, k: K): seq<V> {
    if |items| == 0 then []
    else
      var last := items[|items| - 1];
      ValuesFor(items[..|items| - 1], k) + (if last.0 == k then [last.1] else [])
  }

  /** A key that never occurs has no values. */
  lemma {:induction false} ValuesForAbsent<K, V>(items: seq<(K, V)>, k: K)
    requires k !in ItemKeys(items)
    ensures ValuesFor(items, k) == []
    decreases |items|
  {
    if |items| > 0 {
      var init := items[..|items| - 1];
      assert forall x :: x in ItemKeys(init) ==> x in ItemKeys(items) by {
        assert forall i :: 0 <= i < |init| ==> ItemKeys(init)[i] == ItemKeys(items)[i];
      }
      assert items[|items| - 1].0 == ItemKeys(items)[|items| - 1];
      ValuesForAbsent(init, k);
    }
  }

  /** Inserting extends the key order exactly as deduplication does. */
  lemma InsertKeys<K, V>(gs: seq<Group<K, V>>, k: K, v: V)
    ensures Keys(Insert(gs, k, v)) == if k in Keys(gs) then Keys(gs) else Keys(gs) + [k]
  {
    match KeyIndex(gs, k)
    case Some(i) =>
      assert Keys(Insert(gs, k, v)) == Keys(gs);
    case None =>
      assert Keys(Insert(gs, k, v)) == Keys(gs) + [k];
  }

  /** The groups come in order of each key's first occurrence, one group per key. */
  lemma {:induction false} GroupByKeys<K, V>(items: seq<(K, V)>)
    ensures Keys(GroupBy(items)) == Dedupe(ItemKeys(items))
    decreases |items|
  {
    if |items| > 0 {
      var init := items[..|items| - 1];
      GroupByKeys(init);
      assert ItemKeys(items)[..|items| - 1] == ItemKeys(init);
      InsertKeys(GroupBy(init), items[|items| - 1].0, items[|items| - 1].1);
    }
  }

  /** Each group holds exactly the values of its key's items, in order. */
  lemma {:induction false} GroupByValues<K, V>(items: seq<(K, V)>)
    ensures forall i :: 0 <= i < |GroupBy(items)| ==>
              GroupBy(items)[i].values == ValuesFor(items, GroupBy(items)[i].key)
    decreases |items|
  {
    if |items| > 0 {
      var init := items[..|items| - 1];
      var (k, v) := items[|items| - 1];
      var gs := GroupBy(init);
      GroupByValues(init);
      GroupByKeys(init);
      DedupeSpec(ItemKeys(init));
      var r := GroupBy(items);
      assert r == Insert(gs, k, v);
      match KeyIndex(gs, k)
      case Some(i) =>
        forall j | 0 <= j < |r|
          ensures r[j].values == ValuesFor(items, r[j].key)
        {
          if j != i {
            assert Keys(gs)[j] != Keys(gs)[i];
          }
        }
      case None =>
        assert k !in ItemKeys(init);
        ValuesForAbsent(init, k);
    }
  }

  /** The number of values over all groups. */
  function TotalSize<K, V>(gs: seq<Group<K, V>>): nat {
    if |gs| == 0 then 0 else TotalSize(gs[..|gs| - 1]) + |gs[|gs| - 1].values|
  }

  /** Replacing one group changes the total by the change in that group's size. */
  lemma {:induction false} TotalSizeUpdate<K, V>(gs: seq<Group<K, V>>, i: nat, g: Group<K, V>)
    requires i < |gs|
    ensures TotalSize(gs[i := g]) == TotalSize(gs) - |gs[i].values| + |g.values|
    decreases |gs|
  {
    var n := |gs| - 1;
    if i < n {
      assert gs[i := g][..n] == gs[..n][i := g];
      TotalSizeUpdate(gs[..n], i, g);
    } else {
      assert gs[i := g][..n] == gs[..n];
    }
  }

  /** Grouping loses no value and invents none: the group sizes add up to the item count. */
  lemma {:induction false} GroupBySize<K, V>(items: seq<(K, V)>)
    ensures TotalSize(GroupBy(items)) == |items|
    decreases |items|
  {
    if |items| > 0 {
      var init := items[..|items| - 1];
      var (k, v) := items[|items| - 1];
      var gs := GroupBy(init);
      GroupBySize(init);
      match KeyIndex(gs, k)
      case Some(i) =>
        TotalSizeUpdate(gs, i, Group(k, gs[i].values + [v]));
      case None =>
        var r := gs + [Group(k, [v])];
        assert r[..|r| - 1] == gs;
    }
  }
}
