/** The gallery of a user's saved designs: loading, deleting, and the frames badge. */
module Gallery {
  import opened Wrappers
  import opened Js
  import Seqs
  import Checkout

  /** A design as the store returns it; `cells` is JSON text and may be missing. */
  datatype StoredDesign = StoredDesign(
    id: string, name: string, userId: string, gridRows: int, gridCols: int,
    cells: Option<string>, totalPrice: int, createdAt: string, updatedAt: string)

  /** A design as the gallery holds it, with its cells parsed. */
  datatype LoadedDesign = LoadedDesign(
    id: string, name: string, userId: string, gridRows: int, gridCols: int,
    cells: Json, totalPrice: int, createdAt: string, updatedAt: string)

  /** `design.cells || '[]'`: a missing or empty cells text reads as an empty array. */
  function CellsText(raw: Option<string>): (t: string)
    ensures raw.None? || raw == Some("") ==> t == "[]"
    ensures raw.Some? && raw.value != "" ==> t == raw.value
  {
    match raw
    case None => "[]"
    case Some(s) => if s == "" then "[]" else s
  }

  /** One design with its cells parsed and every other field carried over; `None` when parsing throws. */
  function LoadDesign(d: StoredDesign, parse: string -> Option<Json>): (r: Option<LoadedDesign>)
    ensures r.Some? <==> parse(CellsText(d.cells)).Some?
    ensures r.Some? ==>
              && r.value.cells == parse(CellsText(d.cells)).value
              && r.value.id == d.id && r.value.name == d.name && r.value.userId == d.userId
              && r.value.gridRows == d.gridRows && r.value.gridCols == d.gridCols
              && r.value.totalPrice == d.totalPrice
              && r.value.createdAt == d.createdAt && r.value.updatedAt == d.updatedAt
  {
    match parse(CellsText(d.cells))
    case None => None
    case Some(cells) =>
      Some(LoadedDesign(d.id, d.name, d.userId, d.gridRows, d.gridCols, cells, d.totalPrice, d.createdAt, d.updatedAt))
  }

  predicate AllParse(stored: seq<StoredDesign>, parse: string -> Option<Json>) {
    forall i :: 0 <= i < |stored| ==> parse(CellsText(stored[i].cells)).Some?
  }

  /**
   * The gallery's list after loading. `fetched` is the store's answer
   * (`None` when the session or the query failed). One unparseable cells
   * text aborts the whole load, and the page keeps its initial empty list.
   */
  function LoadDesigns(fetched: Option<seq<StoredDesign>>, parse: string -> Option<Json>): (r: seq<LoadedDesign>)
    ensures fetched.None? ==> r == []
    ensures fetched.Some? && !AllParse(fetched.value, parse) ==> r == []
    ensures fetched.Some? && AllParse(fetched.value, parse) ==>
              && |r| == |fetched.value|
              && forall i :: 0 <= i < |r| ==> Some(r[i]) == LoadDesign(fetched.value[i], parse)
  {
    match fetched
    case None => []
    case Some(stored) =>
      if AllParse(stored, parse)
      then seq(|stored|, i requires 0 <= i < |stored| => LoadDesign(stored[i], parse).value)
      else []
  }

  /** A design saved without cells text loads with an empty cell array. */
  lemma MissingCellsLoadEmpty(d: StoredDesign, parse: string -> Option<Json>)
    requires parse("[]") == Some(JArray([]))
    requires d.cells.None? || d.cells == Some("")
    ensures LoadDesign(d, parse).Some? && LoadDesign(d, parse).value.cells == JArray([])
  {
  }

  /**
   * Deleting after the user confirmed (`confirmed`) and the store removed
   * the record (`deleted`): every design with that id leaves the list.
   */
  function DeleteDesign(designs: seq<LoadedDesign>, designId: string, confirmed: bool, deleted: bool): (r: seq<LoadedDesign>)
    ensures !(confirmed && deleted) ==> r == designs
    ensures confirmed && deleted ==> forall d :: d in r <==> d in designs && d.id != designId
    ensures confirmed && deleted ==>
              forall d :: multiset(r)[d] == if d.id != designId then multiset(designs)[d] else 0
    ensures Seqs.SubsequenceOf(r, designs)
  {
    if confirmed && deleted then
      Seqs.FilterIsSubsequence(designs, KeepsOtherThan(designId));
      Seqs.Filter(designs, KeepsOtherThan(designId))
    else
      Seqs.SubsequenceOfSelf(designs);
      designs
  }

  function KeepsOtherThan(designId: string): LoadedDesign -> bool {
    (d: LoadedDesign) => d.id != designId
  }

  /** Deleting an id that no design carries leaves the list as it was. */
  lemma DeleteAbsentIsNoOp(designs: seq<LoadedDesign>, designId: string, confirmed: bool, deleted: bool)
    requires forall i :: 0 <= i < |designs| ==> designs[i].id != designId
    ensures DeleteDesign(designs, designId, confirmed, deleted) == designs
  {
    if confirmed && deleted {
      Seqs.FilterAll(designs, KeepsOtherThan(designId));
    }
  }

  /** The "N frames" badge; `None` is the `TypeError` of non-array cells or a `null` cell. */
  function FramesBadge(cells: Json): (n: Option<nat>)
    ensures n.Some? <==> cells.JArray? && JNull !in cells.items
    ensures n.Some? ==> n.value == Checkout.CountFramed(cells.items)
  {
    match cells
    case JArray(items) =>
      if JNull in items then None
      else
        var p := (c: Json) => Checkout.HasFrame(c);
        Seqs.FilterLength(items, p);
        forall i | 0 <= i < |items|
          ensures p(items[i]) == Checkout.FrameOf(items[i]).FramedBy?
        {
          assert items[i] in items;
        }
        Seqs.CountAgree(items, p, (c: Json) => Checkout.FrameOf(c).FramedBy?);
        Some(|Seqs.Filter(items, p)|)
    case _ => None
  }

  /** The gallery badge and the checkout summary count the same frames. */
  lemma BadgeMatchesCheckoutSummary(items: seq<Json>, key: Json -> Option<string>)
    requires Checkout.Summarisable(items, key)
    ensures Checkout.Summarise(items, key).Some?
    ensures FramesBadge(JArray(items)) == Some(Checkout.SumValues(Checkout.Summarise(items, key).value))
  {
    Checkout.SummariseTotal(items, key);
    assert JNull !in items by {
      forall i | 0 <= i < |items| ensures items[i] != JNull { }
    }
  }

  /**
   * Where a frame has no key, the two pages part ways: the badge still
   * counts the frame, while the checkout summary comes out empty.
   */
  lemma UnkeyedFrameSplitsBadgeAndSummary(parse: string -> Option<Json>, key: Json -> Option<string>, cellsJson: string)
    requires parse(cellsJson) == Some(JArray([JObject([("frameSize", JObject([("toString", JNumber(0))]))])]))
    requires key(JObject([("toString", JNumber(0))])).None?
    ensures FramesBadge(parse(cellsJson).value) == Some(1)
    ensures Checkout.ParseFrameCells(parse, key, cellsJson) == map[]
  {
    var cell := JObject([("frameSize", JObject([("toString", JNumber(0))]))]);
    assert [cell][..0] == [];
    assert Checkout.KeyFails(cell, key);
  }
}
