/**
 * The order repository of src/utils/storage.ts. Every operation first
 * obtains the live document and fails with `NotInitialized` before
 * `initialize`, except `GetOrdersCount`, which then answers 0, and
 * `GetStats`, which then answers None. Every mutating one changes the
 * order collection in memory and calls `UpdateMetadata`, which stamps and
 * writes the document; `DeleteOrder` does so only when it removed an
 * order. Each call is one atomic transition from a store to a store.
 */
module Storage {
  import opened Results
  import opened OrderTypes
  import opened Database
  import Sequences
  import NewestFirst

  /** Some order carries `id`. */
  predicate HasId(orders: seq<Order>, id: string)
  {
    exists k :: 0 <= k < |orders| && orders[k].id == id
  }

  /** `k` is the position of the first order carrying `id`. */
  predicate FirstMatch(orders: seq<Order>, id: string, k: int)
  {
    && 0 <= k < |orders|
    && orders[k].id == id
    && forall j :: 0 <= j < k ==> orders[j].id != id
  }

  /** `findIndex` by id, with -1 as None. */
  function FindIndex(orders: seq<Order>, id: string): (r: Option<nat>)
    ensures r.None? <==> !HasId(orders, id)
    ensures r.Some? ==> FirstMatch(orders, id, r.value)
  {
    if orders == [] then None
    else if orders[0].id == id then Some(0)
    else
      match FindIndex(orders[1..], id)
      case None =>
        assert forall k :: 1 <= k < |orders| ==> orders[k] == orders[1..][k - 1];
        None
      case Some(k) => Some(k + 1)
  }

  /**
   * `after` is `before` with the status of the order at `k` set to
   * `status`: no other order, and no other field of that order, differs.
   */
  predicate StatusOnlyChanged(before: seq<Order>, after: seq<Order>, k: nat, status: Status)
    requires k < |before|
  {
    && |after| == |before|
    && (forall j :: 0 <= j < |before| && j != k ==> after[j] == before[j])
    && after[k].status == status
    && after[k].id == before[k].id
    && after[k].items == before[k].items
    && after[k].totalPrice == before[k].totalPrice
    && after[k].timestamp == before[k].timestamp
  }

  /** Replaces the collection in memory, then stamps and writes the document. */
  function Commit<T>(s: Store, orders: seq<Order>, value: T, env: Env): (r: Step<T>)
    requires s.memory.Some?
    ensures Refreshed(s, env, r)
    ensures r.store.memory.value.orders == orders
    ensures r.result.Ok? ==> r.result.value == value
  {
    var changed := s.(memory := Some(s.memory.value.(orders := orders)));
    var u := UpdateMetadata(changed, env);
    Step(if u.result.Ok? then Ok(value) else Err(u.result.error), u.store)
  }

  /** `addOrder`: the new order goes in front of all stored ones. */
  function AddOrder(s: Store, order: Order, env: Env): (r: Step<()>)
    ensures s.memory.None? ==> r == Step(Err(NotInitialized), s)
    ensures s.memory.Some? ==> Refreshed(s, env, r)
    ensures s.memory.Some? ==>
              var before := s.memory.value.orders;
              var after := r.store.memory.value.orders;
              && |after| == |before| + 1
              && after[0] == order
              && after[1..] == before
  {
    match s.memory
    case None => Step(Err(NotInitialized), s)
    case Some(doc) => Commit(s, [order] + doc.orders, (), env)
  }

  /** `getAllOrders`: a fresh copy of the collection, newest first; the store is left as it is. */
  function GetAllOrders(s: Store): (r: Result<seq<Order>, DbError>)
    ensures s.memory.None? ==> r == Err(NotInitialized)
    ensures s.memory.Some? ==>
              && r.Ok?
              && NewestFirst.SortedNewestFirst(r.value)
              && multiset(r.value) == multiset(s.memory.value.orders)
  {
    match s.memory
    case None => Err(NotInitialized)
    case Some(doc) => Ok(NewestFirst.SortNewestFirst(doc.orders))
  }

  /** `getOrderById`: the first order with that id, or None when no order has it. */
  function GetOrderById(s: Store, id: string): (r: Result<Option<Order>, DbError>)
    ensures s.memory.None? ==> r == Err(NotInitialized)
    ensures s.memory.Some? ==> r.Ok?
    ensures s.memory.Some? ==> (r.value.None? <==> !HasId(s.memory.value.orders, id))
    ensures s.memory.Some? && r.value.Some? ==>
              && r.value.value.id == id
              && r.value.value in s.memory.value.orders
              && forall k :: FirstMatch(s.memory.value.orders, id, k) ==> r.value.value == s.memory.value.orders[k]
  {
    match s.memory
    case None => Err(NotInitialized)
    case Some(doc) =>
      match FindIndex(doc.orders, id)
      case None => Ok(None)
      case Some(k) => Ok(Some(doc.orders[k]))
  }

  /** `getOrdersCount`: the number of stored orders; a failure reads as 0. */
  function GetOrdersCount(s: Store): (n: nat)
    ensures s.memory.None? ==> n == 0
    ensures s.memory.Some? ==> n == |s.memory.value.orders|
    ensures s.memory.Some? ==> n == |GetAllOrders(s).value|
  {
    match s.memory
    case None => 0
    case Some(doc) => |doc.orders|
  }

  predicate InRange(o: Order, start: int, end: int)
  {
    start <= o.timestamp <= end
  }

  /** `getOrdersByDateRange`: the orders stamped within [start, end], both ends included, in stored order. */
  function GetOrdersByDateRange(s: Store, start: int, end: int): (r: Result<seq<Order>, DbError>)
    ensures s.memory.None? ==> r == Err(NotInitialized)
    ensures s.memory.Some? ==>
              var orders := s.memory.value.orders;
              && r.Ok?
              && (forall i :: 0 <= i < |r.value| ==> InRange(r.value[i], start, end))
              && (forall o: Order :: InRange(o, start, end) ==> multiset(r.value)[o] == multiset(orders)[o])
              && Sequences.IsSubsequence(r.value, orders)
  {
    match s.memory
    case None => Err(NotInitialized)
    case Some(doc) => Ok(Sequences.Filter(doc.orders, (o: Order) => InRange(o, start, end)))
  }

  /**
   * `updateOrderStatus`: false, with nothing changed, when no order has
   * the id; otherwise only the status of the first such order changes and
   * the document is stamped and written.
   */
  function UpdateOrderStatus(s: Store, id: string, status: Status, env: Env): (r: Step<bool>)
    ensures s.memory.None? ==> r == Step(Err(NotInitialized), s)
    ensures s.memory.Some? && !HasId(s.memory.value.orders, id) ==> r == Step(Ok(false), s)
    ensures s.memory.Some? && HasId(s.memory.value.orders, id) ==>
              && Refreshed(s, env, r)
              && (r.result.Ok? ==> r.result.value)
              && forall k :: FirstMatch(s.memory.value.orders, id, k) ==>
                   StatusOnlyChanged(s.memory.value.orders, r.store.memory.value.orders, k, status)
  {
    match s.memory
    case None => Step(Err(NotInitialized), s)
    case Some(doc) =>
      match FindIndex(doc.orders, id)
      case None => Step(Ok(false), s)
      case Some(k) => Commit(s, doc.orders[k := doc.orders[k].(status := status)], true, env)
  }

  /**
   * `deleteOrder`: removes every order with the id and keeps the others in
   * order. Reports whether anything was removed, and stamps and writes the
   * document only in that case.
   */
  function DeleteOrder(s: Store, id: string, env: Env): (r: Step<bool>)
    ensures s.memory.None? ==> r == Step(Err(NotInitialized), s)
    ensures s.memory.Some? && !HasId(s.memory.value.orders, id) ==> r == Step(Ok(false), s)
    ensures s.memory.Some? && HasId(s.memory.value.orders, id) ==> Refreshed(s, env, r)
    ensures s.memory.Some? && HasId(s.memory.value.orders, id) ==>
              var before := s.memory.value.orders;
              var after := r.store.memory.value.orders;
              && (r.result.Ok? ==> r.result.value)
              && |after| < |before|
              && (forall i :: 0 <= i < |after| ==> after[i].id != id)
              && (forall o: Order :: o.id != id ==> multiset(after)[o] == multiset(before)[o])
              && Sequences.IsSubsequence(after, before)
  {
    match s.memory
    case None => Step(Err(NotInitialized), s)
    case Some(doc) =>
      var keep := (o: Order) => o.id != id;
      var kept := Sequences.Filter(doc.orders, keep);
      assert HasId(doc.orders, id) <==> |kept| < |doc.orders| by {
        if HasId(doc.orders, id) {
          var k :| 0 <= k < |doc.orders| && doc.orders[k].id == id;
          Sequences.FilterDrops(doc.orders, keep, k);
        } else {
          Sequences.FilterKeepsAll(doc.orders, keep);
        }
      }
      if |kept| < |doc.orders| then Commit(s, kept, true, env)
      else Step(Ok(false), s)
  }

  /** `clear`: empties the collection, then stamps and writes the document. */
  function Clear(s: Store, env: Env): (r: Step<()>)
    ensures s.memory.None? ==> r == Step(Err(NotInitialized), s)
    ensures s.memory.Some? ==> Refreshed(s, env, r) && r.store.memory.value.orders == []
  {
    match s.memory
    case None => Step(Err(NotInitialized), s)
    case Some(_) => Commit(s, [], (), env)
  }

  /**
   * `getStats`: the database's statistics, which count exactly the orders
   * `getOrdersCount` reports and are null before `initialize`.
   */
  function GetStats(s: Store): (r: Option<Stats>)
    ensures r.None? <==> s.memory.None?
    ensures r.Some? ==> r.value.totalOrders == GetOrdersCount(s)
  {
    Database.GetStats(s)
  }
}
