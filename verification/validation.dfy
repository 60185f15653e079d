/**
 * `validateOrderRequest` (src/middleware/validation.ts) as a pure function
 * from a request body to a verdict. The body must hold a non-empty `items`
 * array; the items are checked in index order and, within an item, the
 * checks run name, size, price, quantity. Only the first failure is
 * reported. Reading a property of `null` throws, which Express turns into
 * a server error: that outcome is `Crash`.
 */
module Validation {
  import opened Results
  import opened OrderTypes
  import opened JsonValues
  import Text

  datatype ItemField = NameField | SizeField | PriceField | QuantityField

  /** The position of a check in the per-item sequence. */
  function Rank(f: ItemField): nat
  {
    match f
    case NameField => 0
    case SizeField => 1
    case PriceField => 2
    case QuantityField => 3
  }

  /** Why a request is refused; `position` counts items from 1. */
  datatype Rejection = ItemsRequired | BadItem(position: nat, field: ItemField)

  datatype Verdict = Accept(request: CreateOrderRequest) | Reject(reason: Rejection) | Crash

  // The four checks as the middleware writes them.

  predicate NameRejected(item: Json)
    requires !item.JNull?
  {
    var v := Member(item, "name");
    !Truthy(v) || !v.value.JStr? || Text.Trim(v.value.s) == ""
  }

  predicate SizeRejected(item: Json)
    requires !item.JNull?
  {
    var v := Member(item, "size");
    !Truthy(v) || !(v.value.JStr? && v.value.s in SizeNames)
  }

  predicate PriceRejected(item: Json)
    requires !item.JNull?
  {
    var v := Member(item, "price");
    !(v.Some? && v.value.JNum?) || v.value.n <= 0.0
  }

  predicate QuantityRejected(item: Json)
    requires !item.JNull?
  {
    var v := Member(item, "quantity");
    !Truthy(v) || !v.value.JNum? || v.value.n <= 0.0
  }

  predicate Rejected(item: Json, f: ItemField)
    requires !item.JNull?
  {
    match f
    case NameField => NameRejected(item)
    case SizeField => SizeRejected(item)
    case PriceField => PriceRejected(item)
    case QuantityField => QuantityRejected(item)
  }

  // What a well-formed item is, stated directly.

  /**
   * A field is acceptable when the name is a string with a character that
   * is not white space, the size is one of the size names, and the price
   * and quantity are numbers above zero (a quantity need not be whole).
   */
  predicate FieldOk(item: Json, f: ItemField)
    requires !item.JNull?
  {
    match f
    case NameField =>
      (match Member(item, "name") case Some(JStr(s)) => Text.HasVisibleChar(s) case _ => false)
    case SizeField =>
      (match Member(item, "size") case Some(JStr(s)) => s in SizeNames case _ => false)
    case PriceField =>
      (match Member(item, "price") case Some(JNum(p)) => p > 0.0 case _ => false)
    case QuantityField =>
      (match Member(item, "quantity") case Some(JNum(q)) => q > 0.0 case _ => false)
  }

  predicate ItemValid(item: Json)
  {
    && !item.JNull?
    && FieldOk(item, NameField)
    && FieldOk(item, SizeField)
    && FieldOk(item, PriceField)
    && FieldOk(item, QuantityField)
  }

  /** `f` is the first check, in the middleware's order, that `item` fails. */
  predicate FirstFailure(item: Json, f: ItemField)
  {
    && !item.JNull?
    && !FieldOk(item, f)
    && forall g :: Rank(g) < Rank(f) ==> FieldOk(item, g)
  }

  /** Each check as written rejects exactly the items whose field is not acceptable. */
  lemma RejectedIffNotOk(item: Json, f: ItemField)
    requires !item.JNull?
    ensures Rejected(item, f) <==> !FieldOk(item, f)
  {
    if f == NameField {
      var v := Member(item, "name");
      if v.Some? && v.value.JStr? {
        var s := v.value.s;
        assert Text.Trim(s) == [] <==> !Text.HasVisibleChar(s);
        if s == "" {
          assert !Text.HasVisibleChar(s);
        }
      }
    }
  }

  /** The typed line a valid item denotes. */
  function ReadItem(item: Json): ItemRequest
    requires ItemValid(item)
  {
    var name := Member(item, "name").value.s;
    var size := ParseSize(Member(item, "size").value.s).value;
    ItemRequest(name, size, Member(item, "price").value.n, Member(item, "quantity").value.n)
  }

  /** The outcome of checking one item. */
  datatype ItemCheck = Passes | Fails(field: ItemField) | Throws

  function CheckItem(item: Json): (c: ItemCheck)
    ensures c.Passes? <==> ItemValid(item)
    ensures c.Fails? ==> FirstFailure(item, c.field)
    ensures c.Throws? <==> item.JNull?
  {
    if item.JNull? then Throws
    else
      RejectedIffNotOk(item, NameField);
      if NameRejected(item) then Fails(NameField)
      else
        RejectedIffNotOk(item, SizeField);
        if SizeRejected(item) then Fails(SizeField)
        else
          RejectedIffNotOk(item, PriceField);
          if PriceRejected(item) then Fails(PriceField)
          else
            RejectedIffNotOk(item, QuantityField);
            if QuantityRejected(item) then Fails(QuantityField)
            else Passes
  }

  /** Item `k` is the first item that is not valid. */
  predicate FirstInvalid(items: seq<Json>, k: int)
  {
    && 0 <= k < |items|
    && !ItemValid(items[k])
    && forall j :: 0 <= j < k ==> ItemValid(items[j])
  }

  /** The outcome of the loop over the items from index `i` on. */
  datatype Scan = AllPass | FailsAt(index: nat, field: ItemField) | ThrowsAt(index: nat)

  function ScanItems(items: seq<Json>, i: nat): (r: Scan)
    requires i <= |items|
    requires forall j :: 0 <= j < i ==> ItemValid(items[j])
    decreases |items| - i
    ensures r.AllPass? <==> forall k :: 0 <= k < |items| ==> ItemValid(items[k])
    ensures r.FailsAt? ==> FirstInvalid(items, r.index) && FirstFailure(items[r.index], r.field)
    ensures r.ThrowsAt? ==> FirstInvalid(items, r.index) && items[r.index].JNull?
  {
    if i == |items| then AllPass
    else
      match CheckItem(items[i])
      case Passes => ScanItems(items, i + 1)
      case Fails(f) => FailsAt(i, f)
      case Throws => ThrowsAt(i)
  }

  /**
   * The `items` of a body, when the middleware's first check lets it
   * through: present, truthy, an array, and not empty.
   */
  function ItemsOf(body: Json): (r: Option<seq<Json>>)
    requires !body.JNull?
    ensures r.Some? <==> (match Member(body, "items") case Some(JArr(e)) => |e| > 0 case _ => false)
    ensures r.Some? ==> Member(body, "items") == Some(JArr(r.value))
  {
    var v := Member(body, "items");
    if !Truthy(v) || !v.value.JArr? || |v.value.elems| == 0 then None else Some(v.value.elems)
  }

  function ReadItems(items: seq<Json>): (r: seq<ItemRequest>)
    requires forall k :: 0 <= k < |items| ==> ItemValid(items[k])
    ensures |r| == |items|
    ensures forall k :: 0 <= k < |items| ==> r[k] == ReadItem(items[k])
  {
    seq(|items|, k requires 0 <= k < |items| => ReadItem(items[k]))
  }

  /**
   * The middleware's verdict. Destructuring a null body crashes; a body
   * without a non-empty `items` array is refused with the items-required
   * reason; a body whose items are all valid is accepted with the typed
   * lines; otherwise the verdict concerns the first invalid item: it names
   * that item (counting from 1) and its first failing check, or crashes
   * when that item is `null` (see the two lemmas below for the converse).
   */
  function ValidateOrderRequest(body: Json): (v: Verdict)
    ensures body.JNull? ==> v == Crash
    ensures v == Reject(ItemsRequired) <==> !body.JNull? && ItemsOf(body).None?
    ensures !body.JNull? && ItemsOf(body).Some? ==>
              (v.Accept? <==> forall k :: 0 <= k < |ItemsOf(body).value| ==> ItemValid(ItemsOf(body).value[k]))
    ensures v.Accept? ==> !body.JNull? && ItemsOf(body).Some?
    ensures v.Accept? ==>
              var items := ItemsOf(body).value;
              && |v.request.items| == |items|
              && forall k :: 0 <= k < |items| ==> v.request.items[k] == ReadItem(items[k])
    ensures v.Reject? && v.reason.BadItem? ==> !body.JNull? && ItemsOf(body).Some?
    ensures v.Reject? && v.reason.BadItem? ==>
              var items := ItemsOf(body).value;
              var p := v.reason.position;
              && p >= 1
              && FirstInvalid(items, p - 1)
              && FirstFailure(items[p - 1], v.reason.field)
    ensures v.Crash? && !body.JNull? ==> ItemsOf(body).Some?
  {
    if body.JNull? then Crash
    else
      match ItemsOf(body)
      case None => Reject(ItemsRequired)
      case Some(items) =>
        match ScanItems(items, 0)
        case AllPass => Accept(CreateOrderRequest(ReadItems(items)))
        case FailsAt(k, f) => Reject(BadItem(k + 1, f))
        case ThrowsAt(_) => Crash
  }

  /** An item has at most one first failing check. */
  lemma FirstFailureUnique(item: Json, f: ItemField, g: ItemField)
    requires FirstFailure(item, f) && FirstFailure(item, g)
    ensures f == g
  {
    assert Rank(f) == Rank(g);
  }

  /** The scan stops at the first invalid item, whichever it is. */
  lemma ScanStopsAtFirstInvalid(items: seq<Json>, k: int)
    requires FirstInvalid(items, k)
    ensures ScanItems(items, 0) == if items[k].JNull? then ThrowsAt(k) else FailsAt(k, ScanItems(items, 0).field)
  {
    var r := ScanItems(items, 0);
    assert !r.AllPass?;
    assert FirstInvalid(items, r.index);
  }

  /**
   * The converse of the rejection clause: when item `k` is the first
   * invalid one, is not null, and first fails check `f`, the verdict names
   * item `k + 1` and check `f`.
   */
  lemma RejectsFirstBadItem(body: Json, k: nat, f: ItemField)
    requires !body.JNull? && ItemsOf(body).Some?
    requires FirstInvalid(ItemsOf(body).value, k) && FirstFailure(ItemsOf(body).value[k], f)
    ensures ValidateOrderRequest(body) == Reject(BadItem(k + 1, f))
  {
    var items := ItemsOf(body).value;
    ScanStopsAtFirstInvalid(items, k);
    FirstFailureUnique(items[k], f, ScanItems(items, 0).field);
  }

  /** When the first invalid item is `null`, reading its name throws: the request crashes. */
  lemma CrashesAtFirstNullItem(body: Json, k: nat)
    requires !body.JNull? && ItemsOf(body).Some?
    requires FirstInvalid(ItemsOf(body).value, k) && ItemsOf(body).value[k].JNull?
    ensures ValidateOrderRequest(body) == Crash
  {
    ScanStopsAtFirstInvalid(ItemsOf(body).value, k);
  }

  /** The response message for each rejection. */
  function Message(r: Rejection): string
  {
    match r
    case ItemsRequired => "Items array is required and cannot be empty"
    case BadItem(p, f) => "Item " + Text.NatToString(p) + ": " + FieldMessage(f)
  }

  function FieldMessage(f: ItemField): string
  {
    match f
    case NameField => "Name is required and cannot be empty"
    case SizeField => "Size must be 'small', 'medium', or 'large'"
    case PriceField => "Price must be a positive number"
    case QuantityField => "Quantity must be a positive number"
  }

  /** Two different digit strings make two different item messages, whatever follows them. */
  lemma PrefixedDigitsDiffer(d1: string, t1: string, d2: string, t2: string)
    requires Text.IsDigits(d1) && Text.IsDigits(d2) && d1 != d2
    ensures "Item " + d1 + ": " + t1 != "Item " + d2 + ": " + t2
  {
    var m1 := "Item " + d1 + ": " + t1;
    var m2 := "Item " + d2 + ": " + t2;
    if |d1| < |d2| {
      assert m1[5 + |d1|] == ':' && m2[5 + |d1|] == d2[|d1|];
    } else if |d2| < |d1| {
      assert m2[5 + |d2|] == ':' && m1[5 + |d2|] == d1[|d2|];
    } else {
      var k :| 0 <= k < |d1| && d1[k] != d2[k];
      assert m1[5 + k] == d1[k] && m2[5 + k] == d2[k];
    }
  }

  /** Two checks of the same item are reported differently. */
  lemma SameItemMessagesDiffer(d: string, f: ItemField, g: ItemField)
    requires f != g
    ensures "Item " + d + ": " + FieldMessage(f) != "Item " + d + ": " + FieldMessage(g)
  {
    var x := "Item " + d + ": ";
    var mf, mg := FieldMessage(f), FieldMessage(g);
    assert mf[0] != mg[0] by {
      assert mf[0] == if f.NameField? then 'N' else if f.SizeField? then 'S' else if f.PriceField? then 'P' else 'Q';
      assert mg[0] == if g.NameField? then 'N' else if g.SizeField? then 'S' else if g.PriceField? then 'P' else 'Q';
    }
    assert (x + mf)[|x|] == mf[0];
    assert (x + mg)[|x|] == mg[0];
  }

  /** A message about one item never reads as the missing-items message. */
  lemma ItemMessageIsNotItemsRequired(p: nat, f: ItemField)
    ensures Message(BadItem(p, f)) != Message(ItemsRequired)
  {
    var tail := Text.NatToString(p) + ": " + FieldMessage(f);
    assert Message(BadItem(p, f)) == "Item " + tail;
    assert ("Item " + tail)[4] == ' ';
    assert Message(ItemsRequired)[4] == 's';
  }

  /** Different rejections are reported with different messages: the message identifies the item and the check. */
  lemma MessagesDistinct(a: Rejection, b: Rejection)
    requires a != b
    ensures Message(a) != Message(b)
  {
    if a.ItemsRequired? {
      ItemMessageIsNotItemsRequired(b.position, b.field);
    } else if b.ItemsRequired? {
      ItemMessageIsNotItemsRequired(a.position, a.field);
    } else if a.position != b.position {
      Text.DecimalRoundTrip(a.position);
      Text.DecimalRoundTrip(b.position);
      PrefixedDigitsDiffer(Text.NatToString(a.position), FieldMessage(a.field),
                           Text.NatToString(b.position), FieldMessage(b.field));
    } else {
      SameItemMessagesDiffer(Text.NatToString(a.position), a.field, b.field);
    }
  }
}
