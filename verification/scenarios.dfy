/**
 * Properties that relate several operations: what a lookup sees after
 * each kind of change, how the statistics follow the collection, and the
 * create / fetch / complete exchange of two coffee-shop lines.
 */
module Scenarios {
  import opened Results
  import opened OrderTypes
  import opened JsonValues
  import opened Database
  import opened Storage
  import Pricing
  import NewestFirst
  import Validation
  import Routes
  import Text

  /** Before `initialize` the live document cannot be had; after a successful one it can. */
  lemma InitializeEnablesAccess(file: DbFile, createdAt: int, lastUpdated: int, env: Env)
    ensures GetDatabase(Boot(file)).Err?
    ensures Initialize(Boot(file), createdAt, lastUpdated, env).result.Ok? ==>
              GetDatabase(Initialize(Boot(file), createdAt, lastUpdated, env).store).Ok?
  {
  }

  /** Because a new order goes in front, looking its id up finds exactly that order, even when the write failed. */
  lemma FindAfterAdd(s: Store, order: Order, env: Env)
    requires s.memory.Some?
    ensures GetOrderById(AddOrder(s, order, env).store, order.id) == Ok(Some(order))
  {
    var after := AddOrder(s, order, env).store.memory.value.orders;
    assert FirstMatch(after, order.id, 0);
  }

  /** After a status update, the lookup returns the same order with only the new status. */
  lemma FindAfterStatusUpdate(s: Store, id: string, status: Status, env: Env, k: nat)
    requires s.memory.Some? && FirstMatch(s.memory.value.orders, id, k)
    ensures GetOrderById(UpdateOrderStatus(s, id, status, env).store, id)
            == Ok(Some(s.memory.value.orders[k].(status := status)))
  {
    var before := s.memory.value.orders;
    var after := UpdateOrderStatus(s, id, status, env).store.memory.value.orders;
    assert StatusOnlyChanged(before, after, k, status);
    assert FirstMatch(after, id, k);
  }

  /** Setting the status an order already has changes no order. */
  lemma StatusUpdateIdempotent(s: Store, id: string, status: Status, env: Env, env2: Env)
    requires s.memory.Some?
    ensures var once := UpdateOrderStatus(s, id, status, env).store;
            var twice := UpdateOrderStatus(once, id, status, env2).store;
            twice.memory.value.orders == once.memory.value.orders
  {
    var before := s.memory.value.orders;
    var once := UpdateOrderStatus(s, id, status, env).store;
    if HasId(before, id) {
      var k := FindIndex(before, id).value;
      var mid := once.memory.value.orders;
      assert StatusOnlyChanged(before, mid, k, status);
      assert FirstMatch(mid, id, k);
      var after := UpdateOrderStatus(once, id, status, env2).store.memory.value.orders;
      assert StatusOnlyChanged(mid, after, k, status);
      assert after[k] == mid[k];
      assert after == mid;
    }
  }

  /** After a delete, no order with that id can be found. */
  lemma FindAfterDelete(s: Store, id: string, env: Env)
    requires s.memory.Some?
    ensures GetOrderById(DeleteOrder(s, id, env).store, id) == Ok(None)
  {
  }

  /** After `clear`, the count is zero and so are the statistics. */
  lemma StatsAfterClear(s: Store, env: Env)
    requires s.memory.Some?
    ensures var after := Clear(s, env).store;
            && GetOrdersCount(after) == 0
            && Storage.GetStats(after) == Some(Stats(0, 0.0, 0.0, env.now))
  {
    StatsOfEmpty(Clear(s, env).store);
  }

  /** Adding an order adds one to the count and its total to the revenue. */
  lemma StatsAfterAdd(s: Store, order: Order, env: Env)
    requires s.memory.Some?
    ensures var after := AddOrder(s, order, env).store;
            && GetOrdersCount(after) == GetOrdersCount(s) + 1
            && Pricing.Revenue(after.memory.value.orders) == order.totalPrice + Pricing.Revenue(s.memory.value.orders)
  {
    var after := AddOrder(s, order, env).store.memory.value.orders;
    assert after == [order] + s.memory.value.orders;
    Pricing.RevenueAppend([order], s.memory.value.orders);
    assert [order][1..] == [];
  }

  /** Changing a status moves no money: the revenue stays as it was. */
  lemma {:induction false} RevenueIgnoresStatus(before: seq<Order>, after: seq<Order>, k: nat, status: Status)
    requires k < |before| && StatusOnlyChanged(before, after, k, status)
    ensures Pricing.Revenue(after) == Pricing.Revenue(before)
  {
    if k > 0 {
      RevenueIgnoresStatus(before[1..], after[1..], k - 1, status);
    } else {
      assert after[1..] == before[1..];
    }
  }

  /** The listing's statistics describe the listed orders: same count, same revenue. */
  lemma ListingAgreesWithStats(s: Store)
    requires s.memory.Some?
    ensures var r := Routes.ListOrders(s);
            && r.reply.stats.value.totalOrders == |r.reply.orders|
            && r.reply.stats.value.totalRevenue == Pricing.Round2(Pricing.Revenue(r.reply.orders))
  {
    NewestFirst.RevenueOfSorted(s.memory.value.orders);
  }

  const LatteLine: Json := JObj(map["name" := JStr("Latte"), "size" := JStr("medium"), "price" := JNum(4.5), "quantity" := JNum(2.0)])
  const MuffinLine: Json := JObj(map["name" := JStr("Muffin"), "size" := JStr("small"), "price" := JNum(2.25), "quantity" := JNum(1.0)])
  const CoffeeBody: Json := JObj(map["items" := JArr([LatteLine, MuffinLine])])
  const CompleteBody: Json := JObj(map["status" := JStr("completed")])

  lemma LatteLineReads()
    ensures Validation.ItemValid(LatteLine)
    ensures Validation.ReadItem(LatteLine) == ItemRequest("Latte", Medium, 4.5, 2.0)
  {
    assert Member(LatteLine, "name") == Some(JStr("Latte"));
    assert Member(LatteLine, "size") == Some(JStr("medium"));
    assert Member(LatteLine, "price") == Some(JNum(4.5));
    assert Member(LatteLine, "quantity") == Some(JNum(2.0));
    assert !Text.IsJsSpace("Latte"[0]);
  }

  lemma MuffinLineReads()
    ensures Validation.ItemValid(MuffinLine)
    ensures Validation.ReadItem(MuffinLine) == ItemRequest("Muffin", Small, 2.25, 1.0)
  {
    assert Member(MuffinLine, "name") == Some(JStr("Muffin"));
    assert Member(MuffinLine, "size") == Some(JStr("small"));
    assert Member(MuffinLine, "price") == Some(JNum(2.25));
    assert Member(MuffinLine, "quantity") == Some(JNum(1.0));
    assert !Text.IsJsSpace("Muffin"[0]);
  }

  lemma CoffeeBodyIsAccepted()
    ensures Validation.ValidateOrderRequest(CoffeeBody).Accept?
    ensures Validation.ValidateOrderRequest(CoffeeBody).request.items
            == [ItemRequest("Latte", Medium, 4.5, 2.0), ItemRequest("Muffin", Small, 2.25, 1.0)]
  {
    var lines := [LatteLine, MuffinLine];
    assert Member(CoffeeBody, "items") == Some(JArr(lines));
    assert Validation.ItemsOf(CoffeeBody) == Some(lines);
    LatteLineReads();
    MuffinLineReads();
    assert forall k :: 0 <= k < |lines| ==> Validation.ItemValid(lines[k]);
  }

  const CoffeeRequest: CreateOrderRequest :=
    CreateOrderRequest([ItemRequest("Latte", Medium, 4.5, 2.0), ItemRequest("Muffin", Small, 2.25, 1.0)])

  lemma CoffeeTotal(newId: nat -> string, createdAt: int)
    ensures Routes.BuildOrder(CoffeeRequest, newId, createdAt).totalPrice == 11.25
  {
    var o := Routes.BuildOrder(CoffeeRequest, newId, createdAt);
    assert Pricing.IsWholeCents(4.5) && Pricing.IsWholeCents(2.25);
    assert Pricing.IsWhole(2.0) && Pricing.IsWhole(1.0);
    Routes.TotalIsExactForWholeCents(CoffeeRequest, newId, createdAt);
    assert o.items[..1] == [o.items[0]];
    assert Pricing.Subtotal(o.items[..1]) == 9.0;
  }

  lemma CoffeePost(s: Store, newId: nat -> string, createdAt: int, replyAt: int, env: Env)
    requires s.memory.Some? && env.diskOk
    ensures var post := Routes.PostOrder(s, CoffeeBody, newId, createdAt, replyAt, env);
            && post.response == Routes.Response(201, Routes.Created(true, newId(0), createdAt, Routes.OrderCreated))
            && post.store == AddOrder(s, Routes.BuildOrder(CoffeeRequest, newId, createdAt), env).store
  {
    CoffeeBodyIsAccepted();
  }

  /** Fetching the id the coffee order was created under returns that order. */
  lemma FetchAfterCoffeePost(s: Store, newId: nat -> string, createdAt: int, replyAt: int, env: Env)
    requires s.memory.Some? && env.diskOk
    ensures Routes.GetOrder(Routes.PostOrder(s, CoffeeBody, newId, createdAt, replyAt, env).store, newId(0))
            == Routes.Response(200, Routes.Found(Routes.BuildOrder(CoffeeRequest, newId, createdAt)))
  {
    var order := Routes.BuildOrder(CoffeeRequest, newId, createdAt);
    CoffeePost(s, newId, createdAt, replyAt, env);
    FindAfterAdd(s, order, env);
  }

  /** Marking the newest order completed answers 200, and a fetch then shows it completed. */
  lemma CompleteNewest(t: Store, env: Env)
    requires t.memory.Some? && |t.memory.value.orders| > 0 && env.diskOk
    ensures var order := t.memory.value.orders[0];
            var put := Routes.PutStatus(t, order.id, CompleteBody, env);
            && put.response == Routes.Response(200, Routes.Note(true, "Order status updated to completed"))
            && Routes.GetOrder(put.store, order.id) == Routes.Response(200, Routes.Found(order.(status := Completed)))
  {
    var order := t.memory.value.orders[0];
    assert Member(CompleteBody, "status") == Some(JStr("completed"));
    assert Routes.RequestedStatus(CompleteBody) == Some(Completed);
    assert FirstMatch(t.memory.value.orders, order.id, 0);
    FindAfterStatusUpdate(t, order.id, Completed, env, 0);
    assert "Order status updated to " + StatusName(Completed) == "Order status updated to completed";
  }

  /**
   * Posting a latte (4.50 × 2) and a muffin (2.25 × 1) answers 201 with a
   * total of 11.25; fetching the returned id yields that order, pending;
   * marking it completed answers 200, and fetching again shows it completed.
   */
  lemma CreateFetchComplete(s: Store, newId: nat -> string, createdAt: int, replyAt: int, env: Env, env2: Env)
    requires s.memory.Some? && env.diskOk && env2.diskOk
    ensures var order := Routes.BuildOrder(CoffeeRequest, newId, createdAt);
            var post := Routes.PostOrder(s, CoffeeBody, newId, createdAt, replyAt, env);
            var put := Routes.PutStatus(post.store, newId(0), CompleteBody, env2);
            && order.totalPrice == 11.25 && order.status == Pending
            && post.response == Routes.Response(201, Routes.Created(true, newId(0), createdAt, Routes.OrderCreated))
            && Routes.GetOrder(post.store, newId(0)) == Routes.Response(200, Routes.Found(order))
            && put.response.status == 200
            && Routes.GetOrder(put.store, newId(0)) == Routes.Response(200, Routes.Found(order.(status := Completed)))
  {
    var order := Routes.BuildOrder(CoffeeRequest, newId, createdAt);
    CoffeeTotal(newId, createdAt);
    CoffeePost(s, newId, createdAt, replyAt, env);
    FetchAfterCoffeePost(s, newId, createdAt, replyAt, env);
    var post := Routes.PostOrder(s, CoffeeBody, newId, createdAt, replyAt, env);
    assert post.store.memory.value.orders[0] == order;
    CompleteNewest(post.store, env2);
  }
}
