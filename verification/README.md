# Coffee-shop order backend: a Dafny model

The backend takes coffee orders over HTTP and keeps them in one JSON
document on disk (`data/db.json`, through the lowdb library). This project
models its core as pure Dafny functions over immutable values, and proves
what those functions promise. The core is:

- the `Database` singleton (`src/database/db.ts`). It holds the document,
  fills in a default document when reading the file yields no data (a
  missing file), stamps
  `metadata.lastUpdated` and rewrites the file after each change, writes
  backups, and computes statistics.
- the `OrderStorage` repository (`src/utils/storage.ts`). It adds orders
  (newest in front), lists them newest first, finds, filters by date,
  updates the status of, deletes and clears orders.
- the `validateOrderRequest` middleware (`src/middleware/validation.ts`).
  It checks that a create request carries a non-empty `items` array. It
  checks each item's name, size, price and quantity, in that order, and
  reports the first failure.
- the order routes (`src/routes/orders.ts`). They build an order from
  validated lines (generated ids, total rounded to cents, `pending`,
  creation time). They decide between 201, 200, 400, 404 and 500.
- the records of `src/types/order.ts`.

How the model is built:

- The store is a value `Store(memory, file)`:
  - `memory` is the document held in memory, absent until `initialize`;
  - `file` is what the database file holds: missing, unparsable, or a
    document.
- Every operation maps a store to a result and a new store (`Step`).
  Exceptions become `Err(NotInitialized | InitFailed | WriteFailed)`.
- The world outside a call is a parameter:
  - `Env(now, diskOk)` is the call's clock reading and whether the file
    write succeeds;
  - `newId: nat -> string` stands for successive `uuidv4()` calls.
- A failed write keeps the source's order of effects: the in-memory change
  has already happened, the file keeps its old contents, and the caller
  sees an error.
- Numbers are exact reals. `Math.round(x * 100) / 100` is
  `floor(100x + 1/2) / 100`. Timestamps are milliseconds since the epoch.
- Parsed request bodies are a small `Json` datatype. Reading a property of
  `null` throws; Express's error handler (`src/index.ts:75-81`) answers
  that throw with a 500, so the validator's verdict is
  `Accept | Reject | Crash`.

Modules and files:

| file | module | models |
|---|---|---|
| `results.dfy` | `Results` | `Option` and `Result` |
| `order_types.dfy` | `OrderTypes` | items, orders, sizes, statuses |
| `text.dfy` | `Text` | `String.prototype.trim`; decimal rendering of item positions |
| `json_values.dfy` | `JsonValues` | parsed bodies; property reads; truthiness |
| `sequences.dfy` | `Sequences` | `Array.prototype.filter` |
| `pricing.dfy` | `Pricing` | cent rounding, subtotal, revenue |
| `newest_first.dfy` | `NewestFirst` | the stable newest-first sort of `getAllOrders` |
| `database.dfy` | `Database` | `src/database/db.ts` |
| `storage.dfy` | `Storage` | `src/utils/storage.ts` |
| `validation.dfy` | `Validation` | `src/middleware/validation.ts` |
| `routes.dfy` | `Routes` | `src/routes/orders.ts` |
| `scenarios.dfy` | `Scenarios` | properties that span several operations, and a worked create / fetch / complete exchange |

Behaviour of the code that the model keeps:

- The status route is `PUT /:id/status`.
- A quantity must be a positive number; it need not be whole.
- A `null` entry in `items` crashes the request (500) instead of being
  refused with 400. This happens only when no earlier item was refused.
- The default document's timestamps are fixed when the module loads. The
  document is a module-level constant, so they are not the time of
  `initialize`. Each of them is a separate clock reading, so they may
  differ.

## Model

| member | source | states |
|---|---|---|
| OrderTypes.ParseSize | src/types/order.ts:4 | exactly the names "small", "medium" and "large" are sizes, and each parses to the size that prints back as that name |
| OrderTypes.ParseStatus | src/types/order.ts:14 | exactly "pending", "completed" and "cancelled" are statuses, and each parses to the status that prints back as that name |
| Text.Trim | src/middleware/validation.ts:26 | trimming leaves the empty string exactly when the name has no character outside ECMAScript's white space and line terminators; otherwise the result starts and ends with a visible character |
| Text.NatToString | src/middleware/validation.ts:29 | a position prints as a non-empty run of decimal digits with no leading zero |
| Text.DecimalRoundTrip | src/middleware/validation.ts:29 | reading the printed digits back gives the position again, so different items get different numbers in messages |
| Sequences.Filter | src/utils/storage.ts:99 | filtering keeps exactly the elements that pass, as often as they occur, in their original order, and nothing that fails |
| Sequences.FilterDrops | src/utils/storage.ts:97-101 | if one element fails the predicate, the filtered array is strictly shorter |
| Sequences.FilterKeepsAll | src/utils/storage.ts:97-107 | if every element passes, the filtered array equals the original |
| Pricing.Round2 | src/routes/orders.ts:34 | `Math.round(x * 100) / 100` is a whole number of cents within half a cent of x, ties rounding up |
| Pricing.Round2OfWholeCents | src/database/db.ts:104 | rounding an amount that is already in whole cents changes nothing |
| Pricing.RevenueAppend | src/database/db.ts:99 | the revenue sum of two collections put together is the sum of their revenues |
| Pricing.SubtotalOfWholeCents | src/routes/orders.ts:26-28 | with whole-cent prices and whole quantities, the sum over the lines is in whole cents, so rounding leaves it unchanged |
| NewestFirst.Insert | src/utils/storage.ts:31-33 | inserting an order adds exactly that order to the collection |
| NewestFirst.InsertKeepsSorted | src/utils/storage.ts:31-33 | inserting into a newest-first sequence keeps it newest first |
| NewestFirst.SortNewestFirst | src/utils/storage.ts:31-33 | the sorted copy is a permutation of the stored orders in which no order is older than one after it |
| NewestFirst.SortIsStable | src/utils/storage.ts:31-33 | for every timestamp, the orders stamped at that time keep their stored relative order, as `Array.prototype.sort` is stable |
| NewestFirst.RevenueOfSorted | src/utils/storage.ts:31 | sorting the copy for display leaves its revenue sum unchanged |
| Database.DefaultData | src/database/db.ts:19-26 | the default document holds no orders, has version 1.0.0, and carries two separate clock readings from module load: one as `createdAt`, the other as `lastUpdated` |
| Database.Initialize | src/database/db.ts:42-64 | an unreadable file fails and changes nothing; a saved document is loaded as it is; a missing file installs the default document (no orders, version 1.0.0, the two load-time clock readings as `createdAt` and `lastUpdated`), and succeeds exactly when that document is written; success leaves memory and file in agreement |
| Database.GetDatabase | src/database/db.ts:66-71 | the live document is available exactly after `initialize`, and it is the one in memory; before that, the call fails with not-initialised |
| Database.UpdateMetadata | src/database/db.ts:73-78 | before `initialize` it does nothing; after, only `lastUpdated` changes (to the call's clock), and the orders do not. A successful write leaves the file equal to memory; a failed one leaves the file as it was and reports the failure |
| Database.CreateBackup | src/database/db.ts:81-91 | a backup never changes the store; it fails before `initialize` or on a failed write, and otherwise writes out exactly the in-memory document |
| Database.GetStats | src/database/db.ts:94-108 | the statistics are null before `initialize`. They give the order count, the revenue and mean order value rounded to cents (mean 0 for no orders), and the document's `lastUpdated` |
| Database.StatsOfEmpty | src/database/db.ts:98-105 | an empty collection has statistics 0, 0 and 0 |
| Storage.FindIndex | src/utils/storage.ts:77-81 | `findIndex` finds nothing exactly when no order has the id; otherwise it finds the first order that has it |
| Storage.AddOrder | src/utils/storage.ts:9-24 | the new order goes in front of the unchanged stored orders, then the document is stamped and written (failing before `initialize`) |
| Storage.GetAllOrders | src/utils/storage.ts:26-38 | the listing is a newest-first permutation of the stored orders |
| Storage.GetOrderById | src/utils/storage.ts:40-48 | the lookup finds nothing exactly when no order has the id; otherwise it returns the first stored order with that id |
| Storage.GetOrdersCount | src/utils/storage.ts:50-58 | the count is the number of stored orders, which is also the number a listing returns, and 0 when the database cannot be read |
| Storage.GetOrdersByDateRange | src/utils/storage.ts:60-72 | the result holds exactly the stored orders whose timestamp lies in [start, end], both ends included, in stored order |
| Storage.UpdateOrderStatus | src/utils/storage.ts:74-92 | an unknown id changes nothing and answers false. Otherwise only the status of the first matching order changes; the document is stamped and written, and the call answers true unless the write fails |
| Storage.DeleteOrder | src/utils/storage.ts:94-112 | an unknown id changes nothing and answers false. Otherwise every order with the id is removed and the others keep their order; the document is stamped and written |
| Storage.Clear | src/utils/storage.ts:115-125 | clearing leaves no orders and stamps and writes the document |
| Storage.GetStats | src/utils/storage.ts:128-130 | the repository's statistics count exactly the orders `getOrdersCount` reports, and are null before `initialize` |
| Validation.RejectedIffNotOk | src/middleware/validation.ts:26-56 | each of the four checks as written refuses exactly the items whose field is unacceptable |
| Validation.CheckItem | src/middleware/validation.ts:24-56 | one item passes exactly when it is well formed, throws exactly when it is `null`, and otherwise fails at its first unacceptable field in the order name, size, price, quantity |
| Validation.ScanItems | src/middleware/validation.ts:23-57 | the loop gets through exactly when every item is well formed; otherwise it stops at the first item that is not, refusing it at its first bad field or throwing on `null` |
| Validation.ItemsOf | src/middleware/validation.ts:11-20 | the items check passes exactly when `items` is a non-empty array |
| Validation.ValidateOrderRequest | src/middleware/validation.ts:6-60 | a null body crashes, and a missing or empty `items` is refused with the items-required reason. With items, the request is accepted exactly when every item is well formed, and the typed lines are then read from the items. A refusal names the first bad item, counting from 1, and its first bad field |
| Validation.FirstFailureUnique | src/middleware/validation.ts:26-56 | an item has only one first failing check |
| Validation.ScanStopsAtFirstInvalid | src/middleware/validation.ts:23-57 | whichever item is the first invalid one, the loop stops exactly there |
| Validation.RejectsFirstBadItem | src/middleware/validation.ts:23-57 | conversely, when item k is the first invalid one, is not null and first fails check f, the verdict is a refusal naming item k + 1 and check f |
| Validation.CrashesAtFirstNullItem | src/middleware/validation.ts:24-26 | when the first invalid item is `null`, the request crashes |
| Validation.MessagesDistinct | src/middleware/validation.ts:14-56 | different refusals produce different response messages, so a message identifies the item and the failed check |
| Routes.BuildOrder | src/routes/orders.ts:15-37 | the order has the first generated id and the next id per line, copies each line's name, size, price and quantity, is pending and stamped with the creation time, and its total is in whole cents within half a cent of the sum of price times quantity |
| Routes.DistinctIds | src/routes/orders.ts:17-23 | with a generator that never repeats, every line id differs from the other line ids and from the order id |
| Routes.TotalIsExactForWholeCents | src/routes/orders.ts:26-34 | with whole-cent prices and whole quantities, the total is exactly the sum of price times quantity |
| Routes.PostOrder | src/routes/orders.ts:10-62 | a crashing body gets 500 and a refused one gets 400 with the validator's message, both leaving the store alone. The answer is 201 exactly when the body is accepted, the database is initialised and the write succeeds; the built order is then in front of the unchanged older ones, and the file is in sync. Other accepted requests get the 500 create reply, stamped with its own clock reading `replyAt`, not the one `addOrder` wrote into the document. Whenever the body is accepted, the store is what `addOrder` leaves: after a failed write the new order stays in memory, and the file is left as it was |
| Routes.ListOrders | src/routes/orders.ts:65-83 | the listing answers 200 with a newest-first permutation of the stored orders, their count, and statistics that count the same orders; before `initialize` it answers 500 |
| Routes.GetOrder | src/routes/orders.ts:86-110 | the lookup answers 200 with the first order carrying the id, 404 when none does, and 500 before `initialize` |
| Routes.RequestedStatus | src/routes/orders.ts:116-118 | a body names a status exactly when its `status` is one of the three status names |
| Routes.PutStatus | src/routes/orders.ts:113-147 | an absent or unknown status gets 400 and an unknown id gets 404, both leaving the store as it was. Otherwise the store is updated, and the answer is 200 naming the new status exactly when the write succeeds; a failed write gets 500 |
| Routes.GetStatsRoute | src/routes/orders.ts:150-164 | the statistics route always answers 200; its statistics are null exactly before `initialize`, and otherwise count the stored orders |
| Scenarios.InitializeEnablesAccess | src/database/db.ts:42-71 | before `initialize` the document cannot be had; after a successful `initialize` it can |
| Scenarios.FindAfterAdd | src/utils/storage.ts:14 | after an order is added, looking up its id finds exactly that order, even when the write failed |
| Scenarios.FindAfterStatusUpdate | src/utils/storage.ts:83 | after a status update, the lookup returns the same order with only the new status |
| Scenarios.StatusUpdateIdempotent | src/utils/storage.ts:74-92 | setting the same status twice changes the orders only once |
| Scenarios.FindAfterDelete | src/utils/storage.ts:99 | after a delete, no order with that id can be found |
| Scenarios.StatsAfterClear | src/utils/storage.ts:115-125 | after a clear, the count and all the statistics are zero, stamped with the clear's time |
| Scenarios.StatsAfterAdd | src/database/db.ts:97-99 | adding an order adds one to the count and its total to the revenue |
| Scenarios.RevenueIgnoresStatus | src/database/db.ts:99 | a status change leaves the revenue sum unchanged |
| Scenarios.ListingAgreesWithStats | src/routes/orders.ts:67-75 | the listing's statistics describe the listed orders: the same count and the same revenue |
| Scenarios.CoffeeBodyIsAccepted | src/middleware/validation.ts:6-60 | a body with a latte (medium, 4.50 × 2) and a muffin (small, 2.25 × 1) is accepted with those two lines |
| Scenarios.CoffeeTotal | src/routes/orders.ts:26-34 | that order totals 11.25 |
| Scenarios.CoffeePost | src/routes/orders.ts:40-51 | posting it answers 201 with the new id and the creation time, and stores the built order |
| Scenarios.FetchAfterCoffeePost | src/routes/orders.ts:86-102 | fetching the returned id answers 200 with the built order |
| Scenarios.CompleteNewest | src/routes/orders.ts:113-139 | marking the newest order completed answers 200 with "Order status updated to completed", and a fetch then shows it completed |
| Scenarios.CreateFetchComplete | src/routes/orders.ts:10-147 | create, fetch, complete and fetch again: 201, then the pending 11.25 order, then 200, then the same order completed |

## Left out

- File I/O and lowdb are reduced to `DbFile` and `Env.diskOk`. Paths,
  directory creation (`src/database/db.ts:32-40`), JSON encoding and
  partial writes are not modelled.
- The database file is assumed to hold a document with `orders` and
  `metadata` whenever it parses. The source accepts any truthy parsed value
  (`src/database/db.ts:52-58`). On a file without `orders`, `getStats` and
  every repository operation that reads `orders` throw, so the routes
  answer 500; `getOrdersCount` catches its throw and answers 0, and `clear`
  succeeds and restores `orders: []` (`src/utils/storage.ts:50-57`,
  `115-120`). On a file without `metadata`, `updateMetadata` and `getStats`
  throw, so every mutating operation fails after its change in memory.
  None of this is modelled.
- The name of the backup file (`backup-<ms>.json`) is not modelled.
  `Database.CreateBackup` returns the document it writes.
- `initialize` fails when reading the file fails; this model leaves the
  store unchanged in that case. In the source, `this.db` has already been
  assigned before the read, and `src/index.ts:91-93` exits the process
  anyway.
- The default-data branch of `initialize` depends on lowdb. In lowdb 6 and
  later, the constructor's default data may already fill `db.data`, which
  would make that branch unreachable. The library is not part of this
  model, so the branch is modelled as written.
- `uuidv4()` and `new Date()` are parameters (`newId`; `createdAt`,
  `replyAt`, `Env.now`, and the two load-time readings of `DefaultData`).
  Each `new Date()` call in the source has its own parameter. Their uniqueness and monotonicity are not assumed;
  `Routes.DistinctIds` states what a non-repeating generator gives.
- IEEE-754 doubles: prices, quantities and totals are exact reals.
  Binary rounding error, `NaN` and infinities are not modelled, and neither
  are `Math.round`'s results for huge values.
- Timestamps are milliseconds, not ISO strings. An invalid date (`NaN`
  from `new Date(…)`) in the sort or in the date-range filter is not
  modelled.
- `Routes.BuildOrder`: extra properties in a request line would be copied
  into the stored item by the `...item` spread; the model keeps only the
  declared fields.
- The `success: true` field of the 200 replies is implied by the reply
  constructor and not modelled separately.
- Logging (`console.log` and `console.error`), and the rewording of caught
  exceptions into new `Error` messages, are not modelled: callers only see
  that the call failed.
- Concurrency: each call is one atomic transition. Interleaving of
  concurrent requests between `await`s is not modelled.
- Express routing, JSON body parsing, CORS, the health route and server
  start-up (`src/index.ts`) are not part of this model, apart from the
  error handler's 500.
