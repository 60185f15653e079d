/**
 * The records of the order domain (src/types/order.ts): line items,
 * orders, their size and status enumerations, and a create request.
 *
 * Prices, quantities and totals are JSON numbers, modelled as exact reals;
 * timestamps are milliseconds since the epoch.
 */
module OrderTypes {
  import opened Results

  datatype Size = Small | Medium | Large

  datatype Status = Pending | Completed | Cancelled

  /** The size names a request may use, in the order the validator lists them. */
  const SizeNames: seq<string> := ["small", "medium", "large"]

  /** The status names a status update may use. */
  const StatusNames: seq<string> := ["pending", "completed", "cancelled"]

  function SizeName(z: Size): string
  {
    match z
    case Small => "small"
    case Medium => "medium"
    case Large => "large"
  }

  function StatusName(st: Status): string
  {
    match st
    case Pending => "pending"
    case Completed => "completed"
    case Cancelled => "cancelled"
  }

  /** Reads a size name; exactly the listed names are accepted, and each reads back as itself. */
  function ParseSize(t: string): (r: Option<Size>)
    ensures r.Some? <==> t in SizeNames
    ensures r.Some? ==> SizeName(r.value) == t
  {
    if t == "small" then Some(Small)
    else if t == "medium" then Some(Medium)
    else if t == "large" then Some(Large)
    else None
  }

  /** Reads a status name; exactly the listed names are accepted, and each reads back as itself. */
  function ParseStatus(t: string): (r: Option<Status>)
    ensures r.Some? <==> t in StatusNames
    ensures r.Some? ==> StatusName(r.value) == t
  {
    if t == "pending" then Some(Pending)
    else if t == "completed" then Some(Completed)
    else if t == "cancelled" then Some(Cancelled)
    else None
  }

  /** A line of an order; `id` is generated when the order is created. */
  datatype OrderItem = OrderItem(id: string, name: string, size: Size, price: real, quantity: real)

  /** A line as the client sends it: an `OrderItem` without its `id`. */
  datatype ItemRequest = ItemRequest(name: string, size: Size, price: real, quantity: real)

  datatype CreateOrderRequest = CreateOrderRequest(items: seq<ItemRequest>)

  datatype Order = Order(id: string, items: seq<OrderItem>, totalPrice: real, timestamp: int, status: Status)
}
