// The lineage of the schedule sheet's date formulas (backend/scripts/podcast-schedule.ts).
module Lineage {
  import opened Wrappers

  const DAY := 86400000

  datatype Address = Address(row: nat, column: nat)

  /** A cell: a plain date; a formula `source + days` with its cached result; anything else. A cached result
      that is not a date is None. */
  datatype Cell =
    | Date(time: int)
    | Formula(source: Address, days: int, cached: Option<int>)
    | OtherFormula(cached: Option<int>)
    | Other

  type Sheet = Address -> Cell

  datatype Problem = Cycle | BadSource | NotAllowed | Inconsistent

  /** The row a weekly formula refers to: the one above, but for three rows that were moved. */
  function WeeklySource(row: nat): int {
    if row == 64 then 66 else if row == 65 then 63 else if row == 67 then 64 else row - 1
  }

  /** Formulas the sheet may use: yesterday's cell to the left, last week's cell, or the Friday of the week. */
  predicate Allowed(at: Address, source: Address, days: int) {
    (at.row == source.row && 4 <= at.column <= 10 && source.column == at.column - 1 && days == 1)
    || (3 <= at.column <= 10 && source.column == at.column && source.row == WeeklySource(at.row) && days == 7)
    || (at.column == 14 && source.column == 10 && source.row == at.row && days == 4)
  }

  /** The place of a row in time: the moved rows come in the order 63, 65, 66, 64, 67. */
  function Rank(row: nat): nat {
    if row == 64 then 66 else if row == 65 then 64 else if row == 66 then 65 else row
  }

  /** A weekly formula refers to the row just before its own in time. */
  lemma {:induction false} WeeklySourceIsPrevious(row: nat, source: nat)
    requires source == WeeklySource(row)
    ensures Rank(source) == Rank(row) - 1
  {
  }

  /** The cached date of a cell, once its whole lineage has been checked; `seen` guards against cycles. */
  function CachedDate(sheet: Sheet, at: Address, seen: set<Address>): Result<int, Problem>
    decreases Rank(at.row), at.column
  {
    if at in seen then Err(Cycle)
    else
      match sheet(at)
      case Date(time) => Ok(time)
      case Other => Err(BadSource)
      case OtherFormula(cached) => if cached.None? then Err(BadSource) else Err(NotAllowed)
      case Formula(source, days, cached) =>
        if cached.None? then Err(BadSource)
        else if !Allowed(at, source, days) then Err(NotAllowed)
        else
          match CachedDate(sheet, source, seen + {at})
          case Err(problem) => Err(problem)
          case Ok(time) => if cached.value != time + days * DAY then Err(Inconsistent) else Ok(cached.value)
  }

  predicate Before(a: Address, b: Address) {
    Rank(a.row) < Rank(b.row) || (Rank(a.row) == Rank(b.row) && a.column < b.column)
  }

  /** Allowed formulas only refer to earlier cells, so no lineage ever cycles, whatever the sheet holds. */
  lemma {:induction false} NeverCycles(sheet: Sheet, at: Address, seen: set<Address>)
    requires forall s :: s in seen ==> Before(at, s)
    ensures CachedDate(sheet, at, seen) != Err(Cycle)
    decreases Rank(at.row), at.column
  {
    var cell := sheet(at);
    if cell.Formula? && Allowed(at, cell.source, cell.days) {
      assert Before(cell.source, at);
      NeverCycles(sheet, cell.source, seen + {at});
    }
  }

  /** The value of a cell worked out from the plain dates alone, ignoring every cached result. */
  function Recomputed(sheet: Sheet, at: Address): Option<int>
    decreases Rank(at.row), at.column
  {
    match sheet(at)
    case Date(time) => Some(time)
    case Formula(source, days, _) =>
      if !Allowed(at, source, days) || Recomputed(sheet, source).None? then None
      else Some(Recomputed(sheet, source).value + days * DAY)
    case _ => None
  }

  /** Every cached result on the way to the plain date is the recomputed value. */
  predicate CachesAgree(sheet: Sheet, at: Address)
    decreases Rank(at.row), at.column
  {
    var cell := sheet(at);
    cell.Formula? && Allowed(at, cell.source, cell.days) ==>
      cell.cached.Some? && cell.cached == Recomputed(sheet, at) && CachesAgree(sheet, cell.source)
  }

  /** A date is accepted exactly when the lineage ends in a plain date and all its caches are right; it is
      then the recomputed value. */
  lemma {:induction false} AcceptedIsRecomputed(sheet: Sheet, at: Address, seen: set<Address>)
    requires forall s :: s in seen ==> Before(at, s)
    ensures CachedDate(sheet, at, seen).Ok? <==> Recomputed(sheet, at).Some? && CachesAgree(sheet, at)
    ensures CachedDate(sheet, at, seen).Ok? ==> Recomputed(sheet, at) == Some(CachedDate(sheet, at, seen).value)
    decreases Rank(at.row), at.column
  {
    var cell := sheet(at);
    if cell.Formula? && Allowed(at, cell.source, cell.days) {
      assert Before(cell.source, at);
      AcceptedIsRecomputed(sheet, cell.source, seen + {at});
    }
  }

  /** The cells a cell's date is worked out from, itself included. */
  predicate OnLineage(sheet: Sheet, at: Address, cell: Address)
    decreases Rank(at.row), at.column
  {
    cell == at
    || (sheet(at).Formula? && Allowed(at, sheet(at).source, sheet(at).days) && OnLineage(sheet, sheet(at).source, cell))
  }

  /** What each refusal says of the cell itself. */
  predicate IsWrong(sheet: Sheet, at: Address, problem: Problem) {
    var cell := sheet(at);
    match problem
    case Cycle => false
    case BadSource => cell.Other? || ((cell.Formula? || cell.OtherFormula?) && cell.cached.None?)
    case NotAllowed =>
      (cell.OtherFormula? || (cell.Formula? && !Allowed(at, cell.source, cell.days))) && cell.cached.Some?
    case Inconsistent =>
      cell.Formula? && Allowed(at, cell.source, cell.days) && cell.cached.Some? && Recomputed(sheet, at).Some?
      && cell.cached != Recomputed(sheet, at)
  }

  /** Cells seen on the way to a cell come later in time. */
  ghost predicate SeenLater(seen: set<Address>, at: Address) {
    forall s :: s in seen ==> Before(at, s)
  }

  /** The recursion of the source, one call per formula, each adding its cell to what was seen. From any cell it
      accepts exactly the recomputed date, when the lineage has one and all its caches are right; a refusal is
      never a cycle and names what is wrong with some cell of the lineage. */
  method ComputeCachedDate(sheet: Sheet, at: Address, seen: set<Address>) returns (r: Result<int, Problem>)
    ensures SeenLater(seen, at) ==> r != Err(Cycle)
    ensures SeenLater(seen, at) ==> (r.Ok? <==> Recomputed(sheet, at).Some? && CachesAgree(sheet, at))
    ensures SeenLater(seen, at) && r.Ok? ==> Recomputed(sheet, at) == Some(r.value)
    ensures SeenLater(seen, at) && r.Err? ==> exists cell :: OnLineage(sheet, at, cell) && IsWrong(sheet, cell, r.error)
    ensures r == CachedDate(sheet, at, seen)
    decreases Rank(at.row), at.column
  {
    if at in seen { return Err(Cycle); }
    var cell := sheet(at);
    if cell.Date? { return Ok(cell.time); }
    ghost var here := at;
    assert OnLineage(sheet, at, here);
    if cell.Other? || cell.cached.None? {
      assert IsWrong(sheet, here, BadSource);
      return Err(BadSource);
    }
    if cell.OtherFormula? || !Allowed(at, cell.source, cell.days) {
      assert IsWrong(sheet, here, NotAllowed);
      return Err(NotAllowed);
    }
    assert Before(cell.source, at);
    var source := ComputeCachedDate(sheet, cell.source, seen + {at});
    if source.Err? { return source; }
    if cell.cached.value != source.value + cell.days * DAY {
      assert SeenLater(seen, at) ==> IsWrong(sheet, here, Inconsistent);
      return Err(Inconsistent);
    }
    return Ok(cell.cached.value);
  }

  /** The plain date a lineage ends in. */
  function Root(sheet: Sheet, at: Address): Address
    decreases Rank(at.row), at.column
  {
    var cell := sheet(at);
    if cell.Formula? && Allowed(at, cell.source, cell.days) then Root(sheet, cell.source) else at
  }

  /** An accepted date lies as many days after its plain date as the sheet's geometry says: seven for each
      row in time order and one for each column. */
  lemma {:induction false} DateFollowsGeometry(sheet: Sheet, at: Address, seen: set<Address>)
    requires (forall s :: s in seen ==> Before(at, s)) && CachedDate(sheet, at, seen).Ok?
    ensures var root := Root(sheet, at);
            sheet(root).Date?
            && CachedDate(sheet, at, seen).value ==
                 sheet(root).time + (7 * (Rank(at.row) - Rank(root.row)) + (at.column - root.column)) * DAY
    decreases Rank(at.row), at.column
  {
    var cell := sheet(at);
    if cell.Formula? {
      assert Before(cell.source, at);
      DateFollowsGeometry(sheet, cell.source, seen + {at});
      if cell.days == 7 { WeeklySourceIsPrevious(at.row, cell.source.row); }
    }
  }

  // ---------------------------------------------------------------- the cells of one shared formula

  datatype Dated = Dated(row: nat, time: int)

  /** The days expected between two neighbouring cells of a shared formula. */
  function ExpectedDays(previous: nat, row: nat): int {
    if previous == 63 && row == 64 then 21
    else if previous == 64 && row == 65 then -14
    else if previous == 66 && row == 67 then 14
    else (row - previous) * 7
  }

  predicate Moved(row: nat) {
    64 <= row <= 66
  }

  /** The table of discontinuities is seven days for each row in time order, exactly for adjacent rows and
      for rows that were not moved. */
  lemma {:induction false} TableIsRankDifference(previous: nat, row: nat)
    requires previous < row
    ensures ExpectedDays(previous, row) == 7 * (Rank(row) - Rank(previous)) <==>
              row == previous + 1 || (!Moved(previous) && !Moved(row))
  {
  }

  /** Neighbours in the group are as far apart as expected. */
  ghost predicate InSequence(values: seq<Dated>) {
    forall i :: 0 < i < |values| ==>
      values[i].time - values[i - 1].time == ExpectedDays(values[i - 1].row, values[i].row) * DAY
  }

  method CheckGroup(values: seq<Dated>) returns (ok: bool)
    ensures ok <==> InSequence(values)
  {
    var index := 1;
    while index < |values|
      invariant 1 <= index
      invariant forall i :: 0 < i < index && i < |values| ==>
                  values[i].time - values[i - 1].time == ExpectedDays(values[i - 1].row, values[i].row) * DAY
    {
      if values[index].time - values[index - 1].time != ExpectedDays(values[index - 1].row, values[index].row) * DAY {
        return false;
      }
      index := index + 1;
    }
    return true;
  }

  /** An accepted group that fills consecutive rows follows the geometry from its first cell to its last. */
  lemma {:induction false} GroupFollowsGeometry(values: seq<Dated>, i: nat, j: nat)
    requires InSequence(values) && (forall k :: 0 < k < |values| ==> values[k].row == values[k - 1].row + 1)
    requires i <= j < |values|
    ensures values[j].time - values[i].time == 7 * (Rank(values[j].row) - Rank(values[i].row)) * DAY
    decreases j
  {
    if i < j {
      GroupFollowsGeometry(values, i, j - 1);
      TableIsRankDifference(values[j - 1].row, values[j].row);
    }
  }
}
