/**
 * The file-backed store of src/database/db.ts: one JSON document held in
 * memory once `initialize` has run, rewritten in full to `data/db.json`
 * on every change.
 *
 * The store is a value: the in-memory document (absent before
 * `initialize`) together with what the database file holds. A call's
 * clock reading and whether the library's file write succeeds are
 * parameters (`Env`); the file system itself is not modelled.
 */
module Database {
  import opened Results
  import opened OrderTypes
  import Pricing

  datatype Metadata = Metadata(version: string, createdAt: int, lastUpdated: int)

  /** The whole persisted dataset: `DatabaseSchema`. */
  datatype Document = Document(orders: seq<Order>, metadata: Metadata)

  /** What reading the database file yields: nothing yet, unparsable text, or a document. */
  datatype DbFile = Missing | Corrupt | Saved(doc: Document)

  /** `memory` is None until `initialize` has installed a document. */
  datatype Store = Store(memory: Option<Document>, file: DbFile)

  /** One call's view of the outside world: the clock, and whether writing the file succeeds. */
  datatype Env = Env(now: int, diskOk: bool)

  datatype DbError = NotInitialized | InitFailed | WriteFailed

  /** The result of an operation together with the store it leaves behind. */
  datatype Step<+T> = Step(result: Result<T, DbError>, store: Store)

  datatype Stats = Stats(totalOrders: nat, totalRevenue: real, avgOrderValue: real, lastUpdated: int)

  const Version: string := "1.0.0"

  /**
   * The default document. It is a module-level constant, so its timestamps
   * are taken when the module is loaded, not at `initialize`. The clock is
   * read twice, once for each timestamp, and the two readings may differ.
   */
  function DefaultData(createdAt: int, lastUpdated: int): (r: Document)
    ensures r.orders == [] && r.metadata.version == "1.0.0"
    ensures r.metadata.createdAt == createdAt && r.metadata.lastUpdated == lastUpdated
  {
    Document([], Metadata(Version, createdAt, lastUpdated))
  }

  /** The store as the constructor leaves it: no document in memory yet. */
  function Boot(file: DbFile): Store
  {
    Store(None, file)
  }

  /** The file holds exactly the in-memory document. */
  predicate Synced(s: Store)
  {
    s.memory.Some? && s.file == Saved(s.memory.value)
  }

  /**
   * Loads the file; a missing file gets the default document, which is
   * written out. An unreadable file, or a failed write of the default,
   * fails initialisation.
   */
  function Initialize(s: Store, createdAt: int, lastUpdated: int, env: Env): (r: Step<()>)
    ensures s.file.Corrupt? ==> r == Step(Err(InitFailed), s)
    ensures s.file.Saved? ==> r.result.Ok? && r.store.memory == Some(s.file.doc) && r.store.file == s.file
    ensures s.file.Missing? ==>
              && r.store.memory.Some?
              && r.store.memory.value.orders == []
              && r.store.memory.value.metadata == Metadata("1.0.0", createdAt, lastUpdated)
    ensures s.file.Missing? ==> (r.result.Ok? <==> env.diskOk)
    ensures s.file.Missing? && !env.diskOk ==> r.result == Err(InitFailed) && r.store.file == s.file
    ensures r.result.Ok? ==> Synced(r.store)
  {
    match s.file
    case Corrupt => Step(Err(InitFailed), s)
    case Saved(doc) => Step(Ok(()), Store(Some(doc), s.file))
    case Missing =>
      var doc := DefaultData(createdAt, lastUpdated);
      if env.diskOk then Step(Ok(()), Store(Some(doc), Saved(doc)))
      else Step(Err(InitFailed), Store(Some(doc), s.file))
  }

  /** The live document, or a failure before `initialize`. */
  function GetDatabase(s: Store): (r: Result<Document, DbError>)
    ensures r.Err? <==> s.memory.None?
    ensures r.Err? ==> r.error == NotInitialized
    ensures r.Ok? ==> s.memory == Some(r.value)
  {
    match s.memory
    case None => Err(NotInitialized)
    case Some(doc) => Ok(doc)
  }

  /**
   * Compared with `s`, the step's store holds a document whose metadata
   * differs only in `lastUpdated`, now `env.now`; the file was rewritten
   * with it when the write succeeded and is untouched otherwise.
   */
  predicate Refreshed<T>(s: Store, env: Env, r: Step<T>)
    requires s.memory.Some?
  {
    && r.store.memory.Some?
    && r.store.memory.value.metadata == s.memory.value.metadata.(lastUpdated := env.now)
    && (env.diskOk ==> r.result.Ok? && Synced(r.store))
    && (!env.diskOk ==> r.result == Err(WriteFailed) && r.store.file == s.file)
  }

  /**
   * Stamps `lastUpdated` and rewrites the file; does nothing before
   * `initialize`. The stamp is applied before the write, so it survives a
   * failed write.
   */
  function UpdateMetadata(s: Store, env: Env): (r: Step<()>)
    ensures s.memory.None? ==> r == Step(Ok(()), s)
    ensures s.memory.Some? ==> Refreshed(s, env, r) && r.store.memory.value.orders == s.memory.value.orders
  {
    match s.memory
    case None => Step(Ok(()), s)
    case Some(doc) =>
      var stamped := doc.(metadata := doc.metadata.(lastUpdated := env.now));
      if env.diskOk then Step(Ok(()), Store(Some(stamped), Saved(stamped)))
      else Step(Err(WriteFailed), Store(Some(stamped), s.file))
  }

  /**
   * Writes the in-memory document to a fresh backup file and returns what
   * was written (the file's name is left out). Fails before `initialize`;
   * never changes the store.
   */
  function CreateBackup(s: Store, env: Env): (r: Step<Document>)
    ensures r.store == s
    ensures s.memory.None? ==> r.result == Err(NotInitialized)
    ensures s.memory.Some? && env.diskOk ==> r.result == Ok(s.memory.value)
    ensures s.memory.Some? && !env.diskOk ==> r.result == Err(WriteFailed)
  {
    match s.memory
    case None => Step(Err(NotInitialized), s)
    case Some(doc) => if env.diskOk then Step(Ok(doc), s) else Step(Err(WriteFailed), s)
  }

  /**
   * Aggregate figures over the stored orders: their number, their revenue
   * and mean order value rounded to cents (0 when there are none), and the
   * document's `lastUpdated`. None before `initialize`.
   */
  function GetStats(s: Store): (r: Option<Stats>)
    ensures r.None? <==> s.memory.None?
    ensures r.Some? ==>
              var orders := s.memory.value.orders;
              && r.value.totalOrders == |orders|
              && r.value.totalRevenue == Pricing.Round2(Pricing.Revenue(orders))
              && (orders == [] ==> r.value.avgOrderValue == 0.0)
              && (orders != [] ==> r.value.avgOrderValue == Pricing.Round2(Pricing.Revenue(orders) / |orders| as real))
              && r.value.lastUpdated == s.memory.value.metadata.lastUpdated
  {
    match s.memory
    case None => None
    case Some(doc) =>
      var total := |doc.orders|;
      var revenue := Pricing.Revenue(doc.orders);
      var avg := if total > 0 then revenue / total as real else 0.0;
      Some(Stats(total, Pricing.Round2(revenue), Pricing.Round2(avg), doc.metadata.lastUpdated))
  }

  /** An empty collection has zero orders, zero revenue and a zero mean. */
  lemma StatsOfEmpty(s: Store)
    requires s.memory.Some? && s.memory.value.orders == []
    ensures GetStats(s) == Some(Stats(0, 0.0, 0.0, s.memory.value.metadata.lastUpdated))
  {
    assert Pricing.Round2(0.0) == 0.0 by {
      assert (0.0 * 100.0 + 0.5).Floor == 0;
    }
  }
}
