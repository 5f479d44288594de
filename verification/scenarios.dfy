/**
 Concrete checks of one-row sheets. Dates are proleptic Gregorian day numbers,
 as Python's `date.toordinal()` gives them: 738886 is 2024-01-01, 739038 is 2024-06-01.
 */
module Scenarios {
  import opened Wrappers
  import opened CellStatus
  import opened Rows
  import opened Report

  const Jan1: int := 738886
  const Jun1: int := 739038

  /** A cell in red text with no fill: neither colour rule fires. */
  function RedCell(v: Value): Cell {
    Cell(v, Some("FFFF0000"), None, None, false)
  }

  lemma RedCellNotDone(v: Value)
    ensures !IsDone(Some(RedCell(v)))
  {
    FontBlackSpelled(RedCell(v));
  }

  /** A deadline in the past on an unmarked cell gives one deadline finding. */
  lemma DeadlinePassedScenario()
    ensures Overdue(ColMap([Text(DeadlineCol)]), [[RedCell(Other("2024-01-01"))]], Env(Jun1, 30, v => OnDay(Jan1)))
         == [DeadlinePassed(TaskRow("", "", "", "", Some(RedCell(Other("2024-01-01"))), None), Jan1)]
  {
    var h := [Text(DeadlineCol)];
    var c := RedCell(Other("2024-01-01"));
    var rows := [[c]];
    var env := Env(Jun1, 30, v => OnDay(Jan1));
    var m := ColMap(h);
    ColMapHasKey(h, DeadlineCol);
    ColMapLastColumn(h, DeadlineCol);
    forall k | k in m ensures k == DeadlineCol {
      ColMapHasKey(h, k);
    }
    RedCellNotDone(c.value);
    var t := TaskRow("", "", "", "", Some(c), None);
    assert Extract([c], m) == Some(t);
    assert rows[..0] == [];
    var r := RowFindings(t, env);
    assert |r| == 1;
  }

  /** A task forwarded 35 days ago against a 30-day threshold gives one finding of 35 days. */
  lemma ForwardedScenario()
    ensures Overdue(ColMap([Text(ForwardedCol)]), [[RedCell(Other("x"))]], Env(Jun1, 30, v => OnDay(Jun1 - 35)))
         == [ForwardedTooLong(TaskRow("", "", "", "", None, Some(RedCell(Other("x")))), Jun1 - 35, 35)]
  {
    var h := [Text(ForwardedCol)];
    var c := RedCell(Other("x"));
    var env := Env(Jun1, 30, v => OnDay(Jun1 - 35));
    var m := ColMap(h);
    ColMapHasKey(h, ForwardedCol);
    ColMapLastColumn(h, ForwardedCol);
    forall k | k in m ensures k == ForwardedCol {
      ColMapHasKey(h, k);
    }
    RedCellNotDone(c.value);
    var t := TaskRow("", "", "", "", None, Some(c));
    assert Extract([c], m) == Some(t);
    assert [[c]][..0] == [];
    var r := RowFindings(t, env);
    assert |r| == 1;
  }

  /** The same row in black text is done, so it gives no finding. */
  lemma ForwardedDoneScenario()
    ensures Overdue(ColMap([Text(ForwardedCol)]), [[Cell(Other("x"), Some("ff000000"), None, None, false)]],
                    Env(Jun1, 30, v => OnDay(Jun1 - 35))) == []
  {
    var h := [Text(ForwardedCol)];
    var c := Cell(Other("x"), Some("ff000000"), None, None, false);
    var env := Env(Jun1, 30, v => OnDay(Jun1 - 35));
    var m := ColMap(h);
    ColMapHasKey(h, ForwardedCol);
    ColMapLastColumn(h, ForwardedCol);
    forall k | k in m ensures k == ForwardedCol {
      ColMapHasKey(h, k);
    }
    BlackFontDone(c.value, None, None);
    var t := TaskRow("", "", "", "", None, Some(c));
    assert Extract([c], m) == Some(t);
    assert [[c]][..0] == [];
  }

  /**
   A deadline cell holding "" parses to NaT: the deadline test raises and the row is
   abandoned, so its stale forwarded date is not reported either.
   */
  lemma NaTDeadlineScenario()
    ensures var c := RedCell(Other("x"));
            var env := Env(Jun1, 30, v => if v == Text("") then NaT else OnDay(Jun1 - 35));
            ForwardedStale(TaskRow("", "", "", "", Some(RedCell(Text(""))), Some(c)), env)
            && Overdue(ColMap([Text(DeadlineCol), Text(ForwardedCol)]), [[RedCell(Text("")), c]], env) == []
  {
    var h := [Text(DeadlineCol), Text(ForwardedCol)];
    var d := RedCell(Text(""));
    var c := RedCell(Other("x"));
    var env := Env(Jun1, 30, v => if v == Text("") then NaT else OnDay(Jun1 - 35));
    var m := ColMap(h);
    ColMapHasKey(h, DeadlineCol);
    ColMapLastColumn(h, DeadlineCol);
    ColMapHasKey(h, ForwardedCol);
    ColMapLastColumn(h, ForwardedCol);
    forall k | k in m ensures k == DeadlineCol || k == ForwardedCol {
      ColMapHasKey(h, k);
    }
    RedCellNotDone(c.value);
    var t := TaskRow("", "", "", "", Some(d), Some(c));
    assert Extract([d, c], m) == Some(t);
    assert [[d, c]][..0] == [];
    assert DeadlineRaises(t, env);
  }
}
