/**
 * Checkout: the per-size frame summary read back from a stored design's
 * cells, the required-field check, and the order record that is created.
 */
module Checkout {
  import opened Wrappers
  import opened Js
  import Seqs
  import Catalog
  import Orders

  /** Frame counts keyed by the string the page derives from each cell's `frameSize`. */
  type Summary = map<string, nat>

  /** A parsed grid cell whose `frameSize` member is truthy; `cell` must not be `null`. */
  predicate HasFrame(cell: Json) {
    var a := Member(cell, "frameSize");
    a.Found? && Truthy(a.value)
  }

  /** What `cell.frameSize` yields while summarising. */
  datatype CellFrame = NullCell | Unframed | FramedBy(frame: Json)

  function FrameOf(cell: Json): (f: CellFrame)
    ensures f.NullCell? <==> cell.JNull?
    ensures f.FramedBy? <==> !cell.JNull? && HasFrame(cell)
  {
    match Member(cell, "frameSize")
    case Throws => NullCell
    case Undefined => Unframed
    case Found(v) => if Truthy(v) then FramedBy(v) else Unframed
  }

  /** One more frame under key `k`. */
  function Tally(m: Summary, k: string): (r: Summary)
    ensures r.Keys == m.Keys + {k}
    ensures r[k] == (if k in m then m[k] else 0) + 1
    ensures forall j :: j in m && j != k ==> r[j] == m[j]
  {
    m[k := (if k in m then m[k] else 0) + 1]
  }

  /**
   * A framed cell whose `frameSize` cannot be turned into an object key: the
   * conversion throws (an object whose `toString` and `valueOf` give no
   * primitive, say).
   */
  predicate KeyFails(cell: Json, key: Json -> Option<string>) {
    FrameOf(cell).FramedBy? && key(FrameOf(cell).frame).None?
  }

  /** No cell makes the summary loop throw: none is `null` and every frame has a key. */
  predicate Summarisable(cells: seq<Json>, key: Json -> Option<string>) {
    forall i :: 0 <= i < |cells| ==> !cells[i].JNull? && !KeyFails(cells[i], key)
  }

  /**
   * The `forEach` over the cell values, left to right; `None` is the
   * `TypeError` a `null` cell or an unconvertible frame raises. `key`
   * stands for JavaScript's conversion of the `frameSize` value to an
   * object key, `None` where that conversion throws.
   */
  function Summarise(cells: seq<Json>, key: Json -> Option<string>): (r: Option<Summary>)
    ensures r.Some? <==> Summarisable(cells, key)
  {
    if |cells| == 0 then Some(map[])
    else
      var last := cells[|cells| - 1];
      assert cells == cells[..|cells| - 1] + [last];
      match Summarise(cells[..|cells| - 1], key)
      case None => None
      case Some(m) =>
        match FrameOf(last)
        case NullCell => None
        case Unframed => Some(m)
        case FramedBy(f) =>
          match key(f)
          case None => None
          case Some(k) => Some(Tally(m, k))
  }

  /**
   * The summary for a stored cells string. Anything that makes the page's
   * `try` fail (text `parse` rejects, a `null` value, a `null` cell, a
   * frame without a key) gives the empty summary.
   */
  function ParseFrameCells(parse: string -> Option<Json>, key: Json -> Option<string>, cellsJson: string): (r: Summary)
    ensures parse(cellsJson).None? ==> r == map[]
    ensures parse(cellsJson) == Some(JNull) ==> r == map[]
    ensures forall v, cs :: parse(cellsJson) == Some(v) && ObjectValues(v) == Some(cs) ==> r == Summarise(cs, key).GetOr(map[])
  {
    match parse(cellsJson)
    case None => map[]
    case Some(v) =>
      match ObjectValues(v)
      case None => map[]
      case Some(cells) => Summarise(cells, key).GetOr(map[])
  }

  /** A `null` cell hidden behind a later member of the same name does not spoil the summary. */
  lemma ShadowedNullCellIgnored(parse: string -> Option<Json>, key: Json -> Option<string>, cellsJson: string)
    requires parse(cellsJson) == Some(JObject([("a", JNull), ("a", JObject([("frameSize", JBool(true))]))]))
    ensures key(JBool(true)).Some? ==> ParseFrameCells(parse, key, cellsJson) == map[key(JBool(true)).value := 1]
    ensures key(JBool(true)).None? ==> ParseFrameCells(parse, key, cellsJson) == map[]
  {
  }

  // ---------------------------------------------------------------- counting

  /** The cells framed with a frame whose key is `k`. */
  function CountKey(cells: seq<Json>, key: Json -> Option<string>, k: string): nat {
    Seqs.Count(cells, (c: Json) => FrameOf(c).FramedBy? && key(FrameOf(c).frame) == Some(k))
  }

  /** The cells with a truthy `frameSize`. */
  function CountFramed(cells: seq<Json>): nat {
    Seqs.Count(cells, (c: Json) => FrameOf(c).FramedBy?)
  }

  /** Sum of the counts in a summary. */
  ghost function SumValues(m: Summary): nat
    decreases |m|
  {
    if |m| == 0 then 0
    else
      var k :| k in m;
      m[k] + SumValues(m - {k})
  }

  lemma CardRemove(m: Summary, k: string)
    requires k in m
    ensures |m - {k}| == |m| - 1
  {
    assert (m - {k}).Keys == m.Keys - {k};
  }

  /** The key `SumValues` happens to pick first. */
  lemma SumValuesUnfold(m: Summary) returns (j: string)
    requires |m| > 0
    ensures j in m && SumValues(m) == m[j] + SumValues(m - {j})
  {
    j :| j in m && SumValues(m) == m[j] + SumValues(m - {j});
  }

  /** `SumValues` may peel off any key first. */
  lemma {:induction false} SumValuesRemove(m: Summary, k: string)
    requires k in m
    ensures SumValues(m) == m[k] + SumValues(m - {k})
    decreases |m|
  {
    var j := SumValuesUnfold(m);
    if j != k {
      CardRemove(m, j);
      CardRemove(m, k);
      SumValuesRemove(m - {j}, k);
      SumValuesRemove(m - {k}, j);
      assert m - {j} - {k} == m - {k} - {j};
    }
  }

  lemma SumValuesTally(m: Summary, k: string)
    ensures SumValues(Tally(m, k)) == SumValues(m) + 1
  {
    var t := Tally(m, k);
    SumValuesRemove(t, k);
    if k in m {
      SumValuesRemove(m, k);
      assert t - {k} == m - {k};
    } else {
      assert t - {k} == m;
    }
  }

  lemma CountLast<T(!new)>(s: seq<T>, p: T -> bool)
    requires |s| > 0
    ensures Seqs.Count(s, p) == Seqs.Count(s[..|s| - 1], p) + (if p(s[|s| - 1]) then 1 else 0)
  {
    assert s == s[..|s| - 1] + [s[|s| - 1]];
    Seqs.CountAppend(s[..|s| - 1], [s[|s| - 1]], p);
    assert [s[|s| - 1]][1..] == [];
  }

  /** Each key's count is the number of cells framed under that key; the keys are exactly those. */
  lemma {:induction false} SummariseCounts(cells: seq<Json>, key: Json -> Option<string>, k: string)
    requires Summarisable(cells, key)
    ensures Summarise(cells, key).Some?
    ensures k in Summarise(cells, key).value <==> CountKey(cells, key, k) > 0
    ensures k in Summarise(cells, key).value ==> Summarise(cells, key).value[k] == CountKey(cells, key, k)
    decreases |cells|
  {
    if |cells| > 0 {
      var n := |cells| - 1;
      assert cells == cells[..n] + [cells[n]];
      SummariseCounts(cells[..n], key, k);
      CountLast(cells, (c: Json) => FrameOf(c).FramedBy? && key(FrameOf(c).frame) == Some(k));
    }
  }

  /** The counts of a summary add up to the number of framed cells. */
  lemma {:induction false} SummariseTotal(cells: seq<Json>, key: Json -> Option<string>)
    requires Summarisable(cells, key)
    ensures Summarise(cells, key).Some?
    ensures SumValues(Summarise(cells, key).value) == CountFramed(cells)
    decreases |cells|
  {
    if |cells| > 0 {
      var n := |cells| - 1;
      assert cells == cells[..n] + [cells[n]];
      SummariseTotal(cells[..n], key);
      CountLast(cells, (c: Json) => FrameOf(c).FramedBy?);
      var m := Summarise(cells[..n], key).value;
      if FrameOf(cells[n]).FramedBy? {
        SumValuesTally(m, key(FrameOf(cells[n]).frame).value);
      }
    }
  }

  /** For a stored array of non-null cells, the summary counts exactly the framed cells. */
  lemma FrameSummaryOfArray(parse: string -> Option<Json>, key: Json -> Option<string>, cellsJson: string, items: seq<Json>, k: string)
    requires parse(cellsJson) == Some(JArray(items))
    requires Summarisable(items, key)
    ensures SumValues(ParseFrameCells(parse, key, cellsJson)) == CountFramed(items)
    ensures k in ParseFrameCells(parse, key, cellsJson) <==> CountKey(items, key, k) > 0
    ensures k in ParseFrameCells(parse, key, cellsJson) ==> ParseFrameCells(parse, key, cellsJson)[k] == CountKey(items, key, k)
  {
    SummariseTotal(items, key);
    SummariseCounts(items, key, k);
  }

  // ---------------------------------------------------------------- display

  /** The price shown beside each summary line, `count * 25` dollars, in cents. */
  function LinePrice(count: nat): (cents: nat)
    ensures count > 0 ==> cents > 0
    ensures forall f :: f in Catalog.FrameSizes ==> (cents == count * f.price <==> count == 0)
  {
    count * 2500
  }

  /** The prices of all summary lines added up. */
  ghost function SumLinePrices(m: Summary): nat
    decreases |m|
  {
    if |m| == 0 then 0
    else
      var k :| k in m;
      LinePrice(m[k]) + SumLinePrices(m - {k})
  }

  /** The key `SumLinePrices` happens to pick first. */
  lemma SumLinePricesUnfold(m: Summary) returns (k: string)
    requires |m| > 0
    ensures k in m && SumLinePrices(m) == LinePrice(m[k]) + SumLinePrices(m - {k})
  {
    k :| k in m && SumLinePrices(m) == LinePrice(m[k]) + SumLinePrices(m - {k});
  }

  /** The lines of a summary add up to the flat price of all its frames together. */
  lemma {:induction false} LinePricesTotal(m: Summary)
    ensures SumLinePrices(m) == LinePrice(SumValues(m))
    decreases |m|
  {
    if |m| > 0 {
      var k := SumLinePricesUnfold(m);
      CardRemove(m, k);
      LinePricesTotal(m - {k});
      SumValuesRemove(m, k);
    }
  }

  /**
   * For non-null cells the lines shown total 25.00 per framed cell,
   * whatever sizes were chosen.
   */
  lemma SummaryLinesTotal(cells: seq<Json>, key: Json -> Option<string>)
    requires Summarisable(cells, key)
    ensures Summarise(cells, key).Some?
    ensures SumLinePrices(Summarise(cells, key).value) == 2500 * CountFramed(cells)
  {
    SummariseTotal(cells, key);
    LinePricesTotal(Summarise(cells, key).value);
  }

  // ---------------------------------------------------------------- placing an order

  datatype CheckoutDesign = CheckoutDesign(
    id: string, name: string, gridRows: int, gridCols: int, cells: string, totalPrice: int)

  datatype OrderForm = OrderForm(
    customerName: string, customerEmail: string, shippingAddress: string, phone: string, notes: string)

  /** The details snapshot stored (as JSON text) with a new order. */
  datatype FrameDetails = FrameDetails(
    designName: string, gridRows: int, gridCols: int, frameSummary: Summary, customerNotes: string, phone: string)

  datatype NewOrder = NewOrder(
    id: string,
    userId: string,
    designId: string,
    customerName: string,
    customerEmail: string,
    shippingAddress: string,
    status: string,
    totalAmount: int,
    details: FrameDetails)

  datatype SubmitOutcome =
    | NotAttempted          // no design loaded or nobody signed in: the handler returns at once
    | MissingInformation    // a required field is the empty string
    | OrderFailed           // the store rejected the new order
    | OrderPlaced(order: NewOrder)

  /** Name, email and shipping address are required; only the empty string counts as missing. */
  predicate RequiredFieldsPresent(form: OrderForm) {
    form.customerName != "" && form.customerEmail != "" && form.shippingAddress != ""
  }

  /**
   * Placing an order. `userId` is the signed-in user, `orderId` the
   * generated id, `stored` the store's answer to the create call and
   * `emailDelivered` the notification service's, which the sender catches
   * and never reports back.
   */
  function SubmitOrder(
    design: Option<CheckoutDesign>, userId: Option<string>, form: OrderForm, orderId: string,
    parse: string -> Option<Json>, key: Json -> Option<string>, stored: bool, emailDelivered: bool): (r: SubmitOutcome)
    ensures (design.None? || userId.None?) <==> r == NotAttempted
    ensures r == MissingInformation <==> design.Some? && userId.Some? && !RequiredFieldsPresent(form)
    ensures r.OrderPlaced? <==> design.Some? && userId.Some? && RequiredFieldsPresent(form) && stored
    ensures r.OrderPlaced? ==>
              && r.order.status == Orders.Received
              && r.order.totalAmount == design.value.totalPrice
              && r.order.id == orderId
              && r.order.userId == userId.value
              && r.order.designId == design.value.id
              && r.order.customerName == form.customerName
              && r.order.customerEmail == form.customerEmail
              && r.order.shippingAddress == form.shippingAddress
              && r.order.details.frameSummary == ParseFrameCells(parse, key, design.value.cells)
              && r.order.details.customerNotes == form.notes
              && r.order.details.phone == form.phone
  {
    if design.None? || userId.None? then NotAttempted
    else if !RequiredFieldsPresent(form) then MissingInformation
    else
      var d := design.value;
      var summary := ParseFrameCells(parse, key, d.cells);
      var order := NewOrder(
        orderId, userId.value, d.id, form.customerName, form.customerEmail, form.shippingAddress,
        Orders.Received, d.totalPrice,
        FrameDetails(d.name, d.gridRows, d.gridCols, summary, form.notes, form.phone));
      if !stored then OrderFailed
      else OrderPlaced(order)
  }

  /**
   * Whether the confirmation email goes out has no bearing on the order: the
   * sender catches its own failure and the handler ignores what it returns.
   */
  lemma NotificationFailureIsolated(
    design: Option<CheckoutDesign>, userId: Option<string>, form: OrderForm, orderId: string,
    parse: string -> Option<Json>, key: Json -> Option<string>, stored: bool)
    ensures SubmitOrder(design, userId, form, orderId, parse, key, stored, false)
         == SubmitOrder(design, userId, form, orderId, parse, key, stored, true)
  {
  }

  /** Unlike the designer's name check, a whitespace-only customer name passes validation. */
  lemma BlankNamePassesCheckout(d: CheckoutDesign, userId: string, form: OrderForm, orderId: string,
    parse: string -> Option<Json>, key: Json -> Option<string>)
    requires form.customerName == " " && form.customerEmail != "" && form.shippingAddress != ""
    ensures SubmitOrder(Some(d), Some(userId), form, orderId, parse, key, true, true).OrderPlaced?
    ensures AllWhitespace(form.customerName)
  {
  }
}
