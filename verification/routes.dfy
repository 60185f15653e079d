/**
 * The decisions of the order routes (src/routes/orders.ts): how a create
 * request becomes an order and a 201, 400 or 500 response, and which
 * status code the lookup, listing, statistics and status-update handlers
 * answer with. Id generation is a parameter `newId`: the handler draws the
 * order's id first (`newId(0)`) and then one id per line (`newId(i + 1)`).
 * Clock readings are parameters too.
 */
module Routes {
  import opened Results
  import opened OrderTypes
  import opened JsonValues
  import opened Database
  import Storage
  import Validation
  import Pricing
  import NewestFirst

  datatype Reply =
    | Created(success: bool, orderId: string, timestamp: int, message: string)
    | Found(order: Order)
    | Listing(orders: seq<Order>, count: nat, stats: Option<Stats>)
    | StatsReply(stats: Option<Stats>)
    | Note(success: bool, message: string)

  datatype Response = Response(status: nat, reply: Reply)

  /** A response together with the store the request leaves behind. */
  datatype Exchange = Exchange(response: Response, store: Store)

  const InternalError: string := "Internal server error"
  const OrderCreated: string := "Order created successfully"
  const OrderNotFound: string := "Order not found"
  const InvalidStatus: string := "Valid status is required (pending, completed, cancelled)"

  /** The generic failure every handler except `POST /`, and the application's error handler, sends. */
  function ServerError(): Response
  {
    Response(500, Note(false, InternalError))
  }

  /** The order the create handler builds from validated lines. */
  function BuildOrder(request: CreateOrderRequest, newId: nat -> string, timestamp: int): (o: Order)
    ensures o.id == newId(0) && o.status == Pending && o.timestamp == timestamp
    ensures |o.items| == |request.items|
    ensures forall i :: 0 <= i < |o.items| ==>
              var line := request.items[i];
              && o.items[i].id == newId(i + 1)
              && o.items[i].name == line.name
              && o.items[i].size == line.size
              && o.items[i].price == line.price
              && o.items[i].quantity == line.quantity
    ensures Pricing.IsWholeCents(o.totalPrice)
    ensures Pricing.Subtotal(o.items) - 0.005 < o.totalPrice <= Pricing.Subtotal(o.items) + 0.005
  {
    var lines := request.items;
    var items := seq(|lines|, i requires 0 <= i < |lines| =>
      OrderItem(newId(i + 1), lines[i].name, lines[i].size, lines[i].price, lines[i].quantity));
    Order(newId(0), items, Pricing.Round2(Pricing.Subtotal(items)), timestamp, Pending)
  }

  /** An id generator that never repeats itself. */
  ghost predicate Injective(newId: nat -> string)
  {
    forall a: nat, b: nat :: a != b ==> newId(a) != newId(b)
  }

  /** With a generator that never repeats, every line gets its own id, distinct from the order's. */
  lemma DistinctIds(request: CreateOrderRequest, newId: nat -> string, timestamp: int)
    requires Injective(newId)
    ensures var o := BuildOrder(request, newId, timestamp);
            forall i, j :: 0 <= i < j < |o.items| ==> o.items[i].id != o.items[j].id
    ensures var o := BuildOrder(request, newId, timestamp);
            forall i :: 0 <= i < |o.items| ==> o.items[i].id != o.id
  {
    var o := BuildOrder(request, newId, timestamp);
    forall i, j | 0 <= i < j < |o.items|
      ensures o.items[i].id != o.items[j].id
    {
      assert o.items[i].id == newId(i + 1) && o.items[j].id == newId(j + 1);
    }
    forall i | 0 <= i < |o.items|
      ensures o.items[i].id != o.id
    {
      assert o.items[i].id == newId(i + 1) && o.id == newId(0);
    }
  }

  /**
   * When every price is in whole cents and every quantity is whole, the
   * total is exactly Σ price × quantity: the rounding changes nothing.
   */
  lemma TotalIsExactForWholeCents(request: CreateOrderRequest, newId: nat -> string, timestamp: int)
    requires forall i :: 0 <= i < |request.items| ==>
               Pricing.IsWholeCents(request.items[i].price) && Pricing.IsWhole(request.items[i].quantity)
    ensures var o := BuildOrder(request, newId, timestamp);
            o.totalPrice == Pricing.Subtotal(o.items)
  {
    var o := BuildOrder(request, newId, timestamp);
    Pricing.SubtotalOfWholeCents(o.items);
  }

  /**
   * POST /: validate, build the order, store it, and answer 201; 400 or 500
   * otherwise. `createdAt` is the handler's clock reading for the order,
   * `env.now` the one `addOrder` stamps the document with, and `replyAt` the
   * one the 500 reply carries: three separate readings.
   */
  function PostOrder(s: Store, body: Json, newId: nat -> string, createdAt: int, replyAt: int, env: Env): (x: Exchange)
    ensures Validation.ValidateOrderRequest(body).Crash? ==> x == Exchange(ServerError(), s)
    ensures Validation.ValidateOrderRequest(body).Reject? ==>
              x == Exchange(Response(400, Note(false, Validation.Message(Validation.ValidateOrderRequest(body).reason))), s)
    ensures x.response.status == 201 <==> Validation.ValidateOrderRequest(body).Accept? && s.memory.Some? && env.diskOk
    ensures x.response.status == 201 ==>
              && x.response.reply == Created(true, newId(0), createdAt, OrderCreated)
              && Synced(x.store)
              && |x.store.memory.value.orders| == |s.memory.value.orders| + 1
              && x.store.memory.value.orders[0] == BuildOrder(Validation.ValidateOrderRequest(body).request, newId, createdAt)
              && x.store.memory.value.orders[1..] == s.memory.value.orders
    ensures Validation.ValidateOrderRequest(body).Accept? && x.response.status != 201 ==>
              x.response == Response(500, Created(false, "", replyAt, InternalError))
    ensures Validation.ValidateOrderRequest(body).Accept? && s.memory.None? ==> x.store == s
    ensures Validation.ValidateOrderRequest(body).Accept? ==>
              x.store == Storage.AddOrder(s, BuildOrder(Validation.ValidateOrderRequest(body).request, newId, createdAt), env).store
  {
    match Validation.ValidateOrderRequest(body)
    case Crash => Exchange(ServerError(), s)
    case Reject(why) => Exchange(Response(400, Note(false, Validation.Message(why))), s)
    case Accept(request) =>
      var order := BuildOrder(request, newId, createdAt);
      var step := Storage.AddOrder(s, order, env);
      if step.result.Ok? then Exchange(Response(201, Created(true, order.id, createdAt, OrderCreated)), step.store)
      else Exchange(Response(500, Created(false, "", replyAt, InternalError)), step.store)
  }

  /** GET /: every order, newest first, with its count and the statistics. */
  function ListOrders(s: Store): (r: Response)
    ensures s.memory.None? ==> r == ServerError()
    ensures s.memory.Some? ==>
              && r.status == 200
              && r.reply.Listing?
              && NewestFirst.SortedNewestFirst(r.reply.orders)
              && multiset(r.reply.orders) == multiset(s.memory.value.orders)
              && r.reply.count == |r.reply.orders|
              && r.reply.stats.Some?
              && r.reply.stats.value.totalOrders == r.reply.count
  {
    match Storage.GetAllOrders(s)
    case Err(_) => ServerError()
    case Ok(orders) => Response(200, Listing(orders, |orders|, Storage.GetStats(s)))
  }

  /** GET /:id: 200 with the first order carrying the id, 404 when none does. */
  function GetOrder(s: Store, id: string): (r: Response)
    ensures s.memory.None? ==> r == ServerError()
    ensures s.memory.Some? && !Storage.HasId(s.memory.value.orders, id) ==> r == Response(404, Note(false, OrderNotFound))
    ensures s.memory.Some? && Storage.HasId(s.memory.value.orders, id) ==>
              && r.status == 200
              && r.reply.Found?
              && r.reply.order.id == id
              && forall k :: Storage.FirstMatch(s.memory.value.orders, id, k) ==> r.reply.order == s.memory.value.orders[k]
  {
    match Storage.GetOrderById(s, id)
    case Err(_) => ServerError()
    case Ok(None) => Response(404, Note(false, OrderNotFound))
    case Ok(Some(order)) => Response(200, Found(order))
  }

  /** The status named in a body, when it names one of the three. */
  function RequestedStatus(body: Json): (r: Option<Status>)
    requires !body.JNull?
    ensures r.Some? <==> (match Member(body, "status") case Some(JStr(t)) => t in StatusNames case _ => false)
    ensures r.Some? ==> Member(body, "status") == Some(JStr(StatusName(r.value)))
  {
    match Member(body, "status")
    case Some(JStr(t)) => ParseStatus(t)
    case _ => None
  }

  /**
   * PUT /:id/status: 400 for a missing or unknown status, without touching
   * the store; otherwise 404 when no order has the id and 200 when the
   * update was stored.
   */
  function PutStatus(s: Store, id: string, body: Json, env: Env): (x: Exchange)
    ensures body.JNull? ==> x == Exchange(ServerError(), s)
    ensures !body.JNull? && RequestedStatus(body).None? ==> x == Exchange(Response(400, Note(false, InvalidStatus)), s)
    ensures !body.JNull? && RequestedStatus(body).Some? ==>
              var st := RequestedStatus(body).value;
              && (s.memory.None? ==> x == Exchange(ServerError(), s))
              && (s.memory.Some? && !Storage.HasId(s.memory.value.orders, id) ==>
                    x == Exchange(Response(404, Note(false, OrderNotFound)), s))
              && (s.memory.Some? && Storage.HasId(s.memory.value.orders, id) ==>
                    && x.store == Storage.UpdateOrderStatus(s, id, st, env).store
                    && (x.response.status == 200 <==> env.diskOk)
                    && (env.diskOk ==> x.response == Response(200, Note(true, "Order status updated to " + StatusName(st))))
                    && (!env.diskOk ==> x.response == ServerError()))
  {
    if body.JNull? then Exchange(ServerError(), s)
    else
      var v := Member(body, "status");
      if !Truthy(v) || !(v.value.JStr? && v.value.s in StatusNames) then
        Exchange(Response(400, Note(false, InvalidStatus)), s)
      else
        var text := v.value.s;
        var step := Storage.UpdateOrderStatus(s, id, ParseStatus(text).value, env);
        match step.result
        case Err(_) => Exchange(ServerError(), step.store)
        case Ok(false) => Exchange(Response(404, Note(false, OrderNotFound)), step.store)
        case Ok(true) => Exchange(Response(200, Note(true, "Order status updated to " + text)), step.store)
  }

  /** GET /api/stats: always 200; the statistics are null before `initialize`. */
  function GetStatsRoute(s: Store): (r: Response)
    ensures r.status == 200 && r.reply.StatsReply?
    ensures r.reply.stats.None? <==> s.memory.None?
    ensures r.reply.stats.Some? ==> r.reply.stats.value.totalOrders == |s.memory.value.orders|
  {
    Response(200, StatsReply(Storage.GetStats(s)))
  }
}
