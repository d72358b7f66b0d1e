/** A list of items read as a finite map, through a key and a value of each item. */
module FiniteMaps {

  function MapOf<E, K, A>(items: seq<E>, key: E -> K, value: E -> A): map<K, A> {
    if items == [] then map[] else MapOf(items[1..], key, value)[key(items[0]) := value(items[0])]
  }

  /** No two items share a key. */
  ghost predicate Keyed<E, K>(items: seq<E>, key: E -> K) {
    forall e, f | e in items && f in items && key(e) == key(f) :: e == f
  }

  lemma {:induction false} MapHolds<E, K, A>(items: seq<E>, key: E -> K, value: E -> A)
    requires Keyed(items, key)
    ensures forall e | e in items :: key(e) in MapOf(items, key, value) && MapOf(items, key, value)[key(e)] == value(e)
    ensures forall k | k in MapOf(items, key, value) :: exists e :: e in items && key(e) == k
  {
    if items != [] {
      MapHolds(items[1..], key, value);
      assert items[0] in items;
      forall e | e in items
        ensures key(e) in MapOf(items, key, value) && MapOf(items, key, value)[key(e)] == value(e)
      {
        if e != items[0] {
          assert e in items[1..] && key(e) != key(items[0]);
        }
      }
    }
  }

  lemma AddedItem<E, K, A>(was: seq<E>, now: seq<E>, key: E -> K, value: E -> A, e: E)
    requires Keyed(was, key) && Keyed(now, key)
    requires forall f :: f in now <==> f == e || (f in was && key(f) != key(e))
    ensures MapOf(now, key, value) == MapOf(was, key, value)[key(e) := value(e)]
  {
    MapHolds(was, key, value);
    MapHolds(now, key, value);
    var r, s := MapOf(now, key, value), MapOf(was, key, value)[key(e) := value(e)];
    assert e in now;
    forall k
      ensures k in r <==> k in s
      ensures k in r ==> r[k] == s[k]
    {
      if k in r {
        var f :| f in now && key(f) == k;
      }
    }
  }

  lemma FilteredItems<E, K, A>(was: seq<E>, now: seq<E>, key: E -> K, value: E -> A, gone: set<K>)
    requires Keyed(was, key) && Keyed(now, key)
    requires forall f :: f in now <==> f in was && key(f) !in gone
    ensures MapOf(now, key, value) == MapOf(was, key, value) - gone
  {
    MapHolds(was, key, value);
    MapHolds(now, key, value);
    var r, s := MapOf(now, key, value), MapOf(was, key, value) - gone;
    forall k
      ensures k in r <==> k in s
      ensures k in r ==> r[k] == s[k]
    {
      if k in r {
        var f :| f in now && key(f) == k;
      }
    }
  }

  /** The k-th items of two lists with the same keys stand for the same key. */
  lemma SameKeys<E, K, A>(was: seq<E>, now: seq<E>, key: E -> K, value: E -> A, k: K) returns (n: nat)
    requires Keyed(was, key) && Keyed(now, key) && |now| == |was|
    requires forall n | 0 <= n < |was| :: key(now[n]) == key(was[n])
    requires k in MapOf(was, key, value) || k in MapOf(now, key, value)
    ensures n < |was| && key(was[n]) == k
    ensures k in MapOf(was, key, value) && MapOf(was, key, value)[k] == value(was[n])
    ensures k in MapOf(now, key, value) && MapOf(now, key, value)[k] == value(now[n])
  {
    MapHolds(was, key, value);
    MapHolds(now, key, value);
    var e :| (e in was || e in now) && key(e) == k;
    n :| 0 <= n < |was| && (was[n] == e || now[n] == e);
    assert was[n] in was && now[n] in now;
  }

  lemma RewrittenItems<E, K, A>(was: seq<E>, now: seq<E>, key: E -> K, value: E -> A, hit: set<K>, rewrite: A -> A)
    requires Keyed(was, key) && Keyed(now, key) && |now| == |was|
    requires forall n | 0 <= n < |was| :: key(now[n]) == key(was[n])
    requires forall n | 0 <= n < |was| ::
      value(now[n]) == if key(was[n]) in hit then rewrite(value(was[n])) else value(was[n])
    ensures MapOf(now, key, value) ==
      map k | k in MapOf(was, key, value) ::
        if k in hit then rewrite(MapOf(was, key, value)[k]) else MapOf(was, key, value)[k]
  {
    var r, s := MapOf(now, key, value), MapOf(was, key, value);
    forall k | k in r || k in s
      ensures k in r && k in s && r[k] == if k in hit then rewrite(s[k]) else s[k]
    {
      var n := SameKeys(was, now, key, value, k);
    }
  }

  /** The map has an entry for each item, if none is listed twice. */
  lemma {:induction false} MapSize<E, K, A>(items: seq<E>, key: E -> K, value: E -> A)
    requires Keyed(items, key) && forall i, j | 0 <= i < j < |items| :: items[i] != items[j]
    ensures |MapOf(items, key, value)| == |items|
  {
    if items != [] {
      MapSize(items[1..], key, value);
      MapHolds(items[1..], key, value);
      assert forall e | e in items[1..] :: e in items && e != items[0];
      assert key(items[0]) !in MapOf(items[1..], key, value);
    }
  }
}
