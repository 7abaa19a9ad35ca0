/** Saving a design from the designer page. */
module Designer {
  import opened Wrappers
  import opened Grid
  import Js

  datatype SaveError =
    | NameRequired   // the name is empty once trimmed: nothing is sent
    | SaveFailed     // no session, or the store rejected the write

  /**
   * The record the designer writes. Cells stay structured here (the page
   * stores them as JSON text); the generated id and timestamps are not modelled.
   */
  datatype DesignRecord = DesignRecord(
    name: string,
    userId: string,
    gridRows: nat,
    gridCols: nat,
    cells: seq<GridCell>,
    totalPrice: int)

  /**
   * Saving: a name that trims to nothing is refused before anything else;
   * otherwise the current session (`session`) and the store's answer
   * (`stored`) decide. The name is stored as typed, untrimmed, and the total
   * is whatever price the page currently holds.
   */
  function SaveDesign(
    name: string, gridRows: nat, gridCols: nat, cells: seq<GridCell>, totalPrice: int,
    session: Option<string>, stored: bool): (r: Result<DesignRecord, SaveError>)
    ensures r == Failure(NameRequired) <==> Js.AllWhitespace(name)
    ensures r.Success? <==> !Js.AllWhitespace(name) && session.Some? && stored
    ensures r.Success? ==>
              && r.value.name == name
              && r.value.userId == session.value
              && r.value.gridRows == gridRows && r.value.gridCols == gridCols
              && r.value.cells == cells
              && r.value.totalPrice == totalPrice
  {
    Js.TrimEmptyIffBlank(name);
    if Js.Trim(name) == "" then Failure(NameRequired)
    else if session.None? || !stored then Failure(SaveFailed)
    else Success(DesignRecord(name, session.value, gridRows, gridCols, cells, totalPrice))
  }

  /**
   * The total the page holds. `setTotalPrice` is called only by
   * `calculateTotalPrice`, which runs once, in a state initialiser whose
   * closure still sees the initial empty cell list.
   */
  const PageTotal: int := TotalPrice([])

  /** Every design the page saves carries a total of zero, whatever its cells hold. */
  lemma SavedTotalIsZero(
    name: string, gridRows: nat, gridCols: nat, cells: seq<GridCell>, session: Option<string>, stored: bool)
    ensures SaveDesign(name, gridRows, gridCols, cells, PageTotal, session, stored).Success? ==>
              SaveDesign(name, gridRows, gridCols, cells, PageTotal, session, stored).value.totalPrice == 0
  {
  }
}
