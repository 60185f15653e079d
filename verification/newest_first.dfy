/**
 * The ordering `getAllOrders` returns: a copy of the stored orders sorted
 * by timestamp, most recent first. JavaScript's `Array.prototype.sort` is
 * stable, so orders with equal timestamps keep their stored order; the
 * model is a stable insertion sort.
 */
module NewestFirst {
  import opened OrderTypes
  import Pricing

  /** No order is older than one that follows it. */
  predicate SortedNewestFirst(s: seq<Order>)
  {
    forall i, j :: 0 <= i < j < |s| ==> s[i].timestamp >= s[j].timestamp
  }

  /** The orders of `s` stamped at time `t`, in their order in `s`. */
  function StampedAt(s: seq<Order>, t: int): seq<Order>
  {
    if s == [] then []
    else (if s[0].timestamp == t then [s[0]] else []) + StampedAt(s[1..], t)
  }

  /**
   * Places `o` in front of the first order that is not newer than it, so
   * `o` precedes every order of `s` with the same timestamp.
   */
  function Insert(o: Order, s: seq<Order>): (r: seq<Order>)
    ensures |r| == |s| + 1
    ensures multiset(r) == multiset(s) + multiset{o}
  {
    if s == [] || o.timestamp >= s[0].timestamp then [o] + s
    else
      assert s == [s[0]] + s[1..];
      [s[0]] + Insert(o, s[1..])
  }

  /** An order no older than any in a newest-first sequence can go in front of it. */
  lemma ConsKeepsSorted(x: Order, t: seq<Order>)
    requires SortedNewestFirst(t)
    requires forall i :: 0 <= i < |t| ==> t[i].timestamp <= x.timestamp
    ensures SortedNewestFirst([x] + t)
  {
    var r := [x] + t;
    forall i, j | 0 <= i < j < |r| ensures r[i].timestamp >= r[j].timestamp {
      assert r[j] == t[j - 1];
      if i > 0 { assert r[i] == t[i - 1]; }
    }
  }

  /** Inserting into a newest-first sequence keeps it newest first. */
  lemma {:induction false} InsertKeepsSorted(o: Order, s: seq<Order>)
    requires SortedNewestFirst(s)
    ensures SortedNewestFirst(Insert(o, s))
  {
    if s == [] || o.timestamp >= s[0].timestamp {
      ConsKeepsSorted(o, s);
    } else {
      var rest := Insert(o, s[1..]);
      InsertKeepsSorted(o, s[1..]);
      forall i | 0 <= i < |rest| ensures rest[i].timestamp <= s[0].timestamp {
        assert rest[i] in multiset(s[1..]) + multiset{o};
      }
      ConsKeepsSorted(s[0], rest);
    }
  }

  /** The copy `getAllOrders` returns: the same orders, newest first. */
  function SortNewestFirst(s: seq<Order>): (r: seq<Order>)
    ensures SortedNewestFirst(r)
    ensures multiset(r) == multiset(s)
    ensures |r| == |s|
  {
    if s == [] then []
    else
      assert s == [s[0]] + s[1..];
      InsertKeepsSorted(s[0], SortNewestFirst(s[1..]));
      Insert(s[0], SortNewestFirst(s[1..]))
  }

  lemma {:induction false} StampedAtInsert(o: Order, s: seq<Order>, t: int)
    ensures StampedAt(Insert(o, s), t) == if o.timestamp == t then [o] + StampedAt(s, t) else StampedAt(s, t)
  {
    if s == [] || o.timestamp >= s[0].timestamp {
      assert ([o] + s)[1..] == s;
    } else {
      var rest := Insert(o, s[1..]);
      StampedAtInsert(o, s[1..], t);
      assert ([s[0]] + rest)[1..] == rest;
    }
  }

  /**
   * The sort is stable: for every timestamp, the orders stamped at that
   * time appear in the result in the same order as in the store.
   */
  lemma {:induction false} SortIsStable(s: seq<Order>, t: int)
    ensures StampedAt(SortNewestFirst(s), t) == StampedAt(s, t)
  {
    if s != [] {
      SortIsStable(s[1..], t);
      StampedAtInsert(s[0], SortNewestFirst(s[1..]), t);
    }
  }

  lemma {:induction false} RevenueOfInsert(o: Order, s: seq<Order>)
    ensures Pricing.Revenue(Insert(o, s)) == o.totalPrice + Pricing.Revenue(s)
  {
    if s == [] || o.timestamp >= s[0].timestamp {
      assert ([o] + s)[1..] == s;
    } else {
      var rest := Insert(o, s[1..]);
      RevenueOfInsert(o, s[1..]);
      assert ([s[0]] + rest)[1..] == rest;
    }
  }

  /** Sorting for display does not change the revenue the collection adds up to. */
  lemma {:induction false} RevenueOfSorted(s: seq<Order>)
    ensures Pricing.Revenue(SortNewestFirst(s)) == Pricing.Revenue(s)
  {
    if s != [] {
      RevenueOfSorted(s[1..]);
      RevenueOfInsert(s[0], SortNewestFirst(s[1..]));
    }
  }
}
