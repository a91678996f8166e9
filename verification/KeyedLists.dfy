/** Listing the values of a map in sorted order, and counting events by key. */
module KeyedLists {
  import opened SortSlice

  /** `list` holds every value of `m` exactly once; a value knows its own key. */
  ghost predicate Listing<K, V>(list: seq<V>, m: map<K, V>, name: V -> K) {
    && (forall i :: 0 <= i < |list| ==> name(list[i]) in m && m[name(list[i])] == list[i])
    && (forall k :: k in m ==> name(m[k]) == k && m[k] in list)
    && (forall i, j :: 0 <= i < j < |list| ==> name(list[i]) != name(list[j]))
  }

  /** Collects the values of a map, in whatever order it is iterated, and sorts them. */
  method ListSorted<K, V>(m: map<K, V>, name: V -> K, order: V -> int) returns (list: seq<V>)
    requires forall k :: k in m ==> name(m[k]) == k
    ensures Listing(list, m, name) && SortedBy(list, order)
  {
    var stats := [];
    var pending := m.Keys;
    while pending != {}
      invariant pending <= m.Keys
      invariant forall i :: 0 <= i < |stats| ==>
          name(stats[i]) in m && name(stats[i]) !in pending && m[name(stats[i])] == stats[i]
      invariant forall k :: k in m && k !in pending ==> m[k] in stats
      invariant forall i, j :: 0 <= i < j < |stats| ==> name(stats[i]) != name(stats[j])
    {
      var k :| k in pending;
      stats := stats + [m[k]];
      pending := pending - {k};
    }
    var a := new V[|stats|](i requires 0 <= i < |stats| => stats[i]);
    assert a[..] == stats;
    SortBy(a, order);
    list := a[..];
    ReorderedListing(stats, list, m, name);
  }

  lemma ReorderedListing<K, V>(list: seq<V>, other: seq<V>, m: map<K, V>, name: V -> K)
    requires Listing(list, m, name) && multiset(other) == multiset(list)
    ensures Listing(other, m, name)
  {
    forall v ensures v in other <==> v in list {
      assert v in other <==> v in multiset(other);
    }
    forall i | 0 <= i < |other| ensures name(other[i]) in m && m[name(other[i])] == other[i] {
      assert other[i] in list;
    }
    forall i, j | 0 <= i < j < |other| ensures name(other[i]) != name(other[j]) {
      if other[i] == other[j] {
        Twice(other, i, j);
        assert forall p, q :: 0 <= p < q < |list| ==> name(list[p]) != name(list[q]) && list[p] != list[q];
        AtMostOnce(list, other[i]);
      }
    }
  }

  lemma Twice<V>(s: seq<V>, i: nat, j: nat)
    requires i < j < |s| && s[i] == s[j]
    ensures multiset(s)[s[i]] >= 2
  {
    assert s == s[..j] + ([s[j]] + s[j + 1..]);
    assert s[i] in multiset(s[..j]) by { assert s[..j][i] == s[i]; }
  }

  lemma {:induction false} AtMostOnce<V>(s: seq<V>, v: V)
    requires forall i, j :: 0 <= i < j < |s| ==> s[i] != s[j]
    ensures multiset(s)[v] <= 1
  {
    if s != [] {
      var n := |s| - 1;
      AtMostOnce(s[..n], v);
      assert s == s[..n] + [s[n]];
      assert s[n] !in s[..n];
    }
  }

  function CountOf<K(==)>(events: seq<K>, k: K): nat {
    if events == [] then 0 else CountOf(events[..|events| - 1], k) + if events[|events| - 1] == k then 1 else 0
  }

  function SumOver<V>(list: seq<V>, count: V -> int): int {
    if list == [] then 0 else SumOver(list[..|list| - 1], count) + count(list[|list| - 1])
  }

  function Names<K, V>(list: seq<V>, name: V -> K): (ks: seq<K>)
    ensures |ks| == |list| && forall i :: 0 <= i < |ks| ==> ks[i] == name(list[i])
  {
    seq(|list|, i requires 0 <= i < |list| => name(list[i]))
  }

  function SumOfCounts<K(==)>(keys: seq<K>, events: seq<K>): nat {
    if keys == [] then 0 else SumOfCounts(keys[..|keys| - 1], events) + CountOf(events, keys[|keys| - 1])
  }

  lemma {:induction false} OneMoreEvent<K>(keys: seq<K>, events: seq<K>)
    requires events != []
    ensures SumOfCounts(keys, events)
         == SumOfCounts(keys, events[..|events| - 1]) + CountOf(keys, events[|events| - 1])
  {
    if keys != [] { OneMoreEvent(keys[..|keys| - 1], events); }
  }

  lemma {:induction false} ListedOnce<K>(keys: seq<K>, k: K)
    requires forall i, j :: 0 <= i < j < |keys| ==> keys[i] != keys[j]
    ensures CountOf(keys, k) == if k in keys then 1 else 0
  {
    if keys != [] {
      var n := |keys| - 1;
      ListedOnce(keys[..n], k);
      assert keys == keys[..n] + [keys[n]];
    }
  }

  lemma {:induction false} NoEvents<K>(keys: seq<K>)
    ensures SumOfCounts(keys, []) == 0
  {
    if keys != [] { NoEvents(keys[..|keys| - 1]); }
  }

  /** Counting by key loses and doubles nothing. */
  lemma {:induction false} CountsAddUp<K>(keys: seq<K>, events: seq<K>)
    requires forall i, j :: 0 <= i < j < |keys| ==> keys[i] != keys[j]
    requires forall i :: 0 <= i < |events| ==> events[i] in keys
    ensures SumOfCounts(keys, events) == |events|
  {
    if events == [] {
      NoEvents(keys);
    } else {
      CountsAddUp(keys, events[..|events| - 1]);
      OneMoreEvent(keys, events);
      ListedOnce(keys, events[|events| - 1]);
    }
  }

  lemma {:induction false} SumIsSumOfCounts<K, V>(list: seq<V>, name: V -> K, count: V -> int, events: seq<K>)
    requires forall i :: 0 <= i < |list| ==> count(list[i]) == CountOf(events, name(list[i]))
    ensures SumOver(list, count) == SumOfCounts(Names(list, name), events)
  {
    if list != [] {
      SumIsSumOfCounts(list[..|list| - 1], name, count, events);
      assert Names(list, name)[..|list| - 1] == Names(list[..|list| - 1], name);
    }
  }

  /** A listing of counted keys adds up to the number of events. */
  lemma ListingAddsUp<K, V>(list: seq<V>, m: map<K, V>, name: V -> K, count: V -> int, events: seq<K>)
    requires Listing(list, m, name)
    requires forall i :: 0 <= i < |events| ==> events[i] in m
    requires forall i :: 0 <= i < |list| ==> count(list[i]) == CountOf(events, name(list[i]))
    ensures SumOver(list, count) == |events|
  {
    SumIsSumOfCounts(list, name, count, events);
    var keys := Names(list, name);
    forall i | 0 <= i < |events| ensures events[i] in keys {
      var v := m[events[i]];
      assert v in list && name(v) == events[i];
      var k :| 0 <= k < |list| && list[k] == v;
      assert keys[k] == events[i];
    }
    CountsAddUp(keys, events);
  }
}
