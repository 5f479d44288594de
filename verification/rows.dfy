/**
 The row scan of `check_excel`: a column index built from the header row, six named
 columns looked up per data row, and the two independent overdue rules.
 Dates are day numbers; `today`, the day threshold and the date parser are parameters.
 */
module Rows {
  import opened Wrappers
  import opened CellStatus

  /** The six column headers the scan looks up, matched exactly. */
  const ObjectCol: string := "Объект"
  const StructureCol: string := "Сооружение"
  const ResponsibleCol: string := "Ответственный"
  const SubjectCol: string := "Предмет письма"
  const DeadlineCol: string := "Срок от ПГ"
  const ForwardedCol: string := "Направил в ЦЦО"

  /**
   The column index `{name: idx for idx, name in enumerate(headers) if name}`, restricted
   to string headers: a header of another type can never equal one of the six names.
   */
  function ColMap(headers: seq<Value>): map<string, nat>
    decreases |headers|
  {
    if |headers| == 0 then map[]
    else
      var m := ColMap(headers[..|headers| - 1]);
      match headers[|headers| - 1]
      case Text(s) => if s != "" then m[s := |headers| - 1] else m
      case _ => m
  }

  /** A name is a key of the index exactly when some column carries it as a non-empty string header. */
  lemma {:induction false} ColMapHasKey(headers: seq<Value>, k: string)
    ensures k in ColMap(headers) <==> k != "" && exists i :: 0 <= i < |headers| && headers[i] == Text(k)
    decreases |headers|
  {
    if |headers| > 0 {
      var n := |headers| - 1;
      var init := headers[..n];
      ColMapHasKey(init, k);
      if exists i :: 0 <= i < |init| && init[i] == Text(k) {
        var i :| 0 <= i < |init| && init[i] == Text(k);
        assert headers[i] == Text(k);
      }
      if exists i :: 0 <= i < |headers| && headers[i] == Text(k) {
        var i :| 0 <= i < |headers| && headers[i] == Text(k);
        if i < n {
          assert init[i] == Text(k);
        }
      }
    }
  }

  /** A key maps to the LAST column carrying it: a later duplicate header overwrites an earlier one. */
  lemma {:induction false} ColMapLastColumn(headers: seq<Value>, k: string)
    requires k in ColMap(headers)
    ensures ColMap(headers)[k] < |headers| && headers[ColMap(headers)[k]] == Text(k)
    ensures forall j :: ColMap(headers)[k] < j < |headers| ==> headers[j] != Text(k)
    decreases |headers|
  {
    ColMapHasKey(headers, k);
    var n := |headers| - 1;
    var init := headers[..n];
    if headers[n] != Text(k) {
      assert k in ColMap(init) && ColMap(headers)[k] == ColMap(init)[k];
      ColMapLastColumn(init, k);
      forall j | ColMap(headers)[k] < j < |headers|
        ensures headers[j] != Text(k)
      {
        if j < n {
          assert init[j] == headers[j];
        }
      }
    }
  }

  /** The outcome of `row[col_map.get(name)] if name in col_map else None`. */
  datatype Lookup = Absent | At(cell: Cell) | OutOfRange

  function LookupColumn(row: seq<Cell>, m: map<string, nat>, name: string): Lookup {
    if name !in m then Absent
    else if m[name] < |row| then At(row[m[name]])
    else OutOfRange
  }

  /** Python's `str(v)` for a cell value; an empty cell prints "None". */
  function Show(v: Value): string {
    match v
    case Blank => "None"
    case Text(s) => s
    case Other(shown) => shown
  }

  /** A field's text: "" when the column is missing, else the cell value's `str()`. */
  function FieldText(c: Option<Cell>): string {
    match c
    case None => ""
    case Some(cell) => Show(cell.value)
  }

  /** One data row's meaning: four text fields and the two date cells (absent if the column is). */
  datatype TaskRow = TaskRow(
    objectName: string,
    structure: string,
    responsible: string,
    subject: string,
    deadline: Option<Cell>,
    forwarded: Option<Cell>)

  function CellOf(l: Lookup): Option<Cell> {
    if l.At? then Some(l.cell) else None
  }

  /** The row's task, or None when an index lookup fails (`check_excel` skips such a row). */
  function Extract(row: seq<Cell>, m: map<string, nat>): (r: Option<TaskRow>)
    ensures r.None? <==> exists name :: name in Columns && name in m && m[name] >= |row|
    ensures r.Some? ==> r.value.deadline == (if DeadlineCol in m then Some(row[m[DeadlineCol]]) else None)
    ensures r.Some? ==> r.value.forwarded == (if ForwardedCol in m then Some(row[m[ForwardedCol]]) else None)
    ensures r.Some? ==> r.value.objectName == (if ObjectCol in m then Show(row[m[ObjectCol]].value) else "")
    ensures r.Some? ==> r.value.structure == (if StructureCol in m then Show(row[m[StructureCol]].value) else "")
    ensures r.Some? ==> r.value.responsible == (if ResponsibleCol in m then Show(row[m[ResponsibleCol]].value) else "")
    ensures r.Some? ==> r.value.subject == (if SubjectCol in m then Show(row[m[SubjectCol]].value) else "")
  {
    var o := LookupColumn(row, m, ObjectCol);
    var t := LookupColumn(row, m, StructureCol);
    var p := LookupColumn(row, m, ResponsibleCol);
    var s := LookupColumn(row, m, SubjectCol);
    var d := LookupColumn(row, m, DeadlineCol);
    var f := LookupColumn(row, m, ForwardedCol);
    if o.OutOfRange? || t.OutOfRange? || p.OutOfRange? || s.OutOfRange? || d.OutOfRange? || f.OutOfRange? then
      None
    else
      Some(TaskRow(FieldText(CellOf(o)), FieldText(CellOf(t)), FieldText(CellOf(p)),
                   FieldText(CellOf(s)), CellOf(d), CellOf(f)))
  }

  const Columns: set<string> := {ObjectCol, StructureCol, ResponsibleCol, SubjectCol, DeadlineCol, ForwardedCol}

  /**
   What `parse_date` returns: `None`, a date (as a day number), or pandas' NaT, which
   `pd.to_datetime` gives for a value such as the empty string. NaT is truthy, and
   comparing it with a date raises.
   */
  datatype Parsed = NoDate | OnDay(day: int) | NaT

  /** What one check of one user depends on besides the sheet. */
  datatype Env = Env(today: int, daysLimit: int, parse: Value -> Parsed)

  /** `parse_date(cell.value if cell else None)`: no date for a missing or empty cell, else the parser's answer. */
  function ParseDate(env: Env, c: Option<Cell>): Parsed {
    match c
    case None => NoDate
    case Some(cell) => if cell.value.Blank? then NoDate else env.parse(cell.value)
  }

  /** One flagged condition: the deadline passed, or the task was forwarded `days` ago. */
  datatype Finding =
    | DeadlinePassed(task: TaskRow, date: int)
    | ForwardedTooLong(task: TaskRow, date: int, days: int)

  /** Rule A: the deadline cell holds a date no later than today and is not marked done. */
  predicate DeadlineDue(t: TaskRow, env: Env) {
    ParseDate(env, t.deadline).OnDay? && ParseDate(env, t.deadline).day <= env.today && !IsDone(t.deadline)
  }

  /** Rule B: the forwarded cell holds a date at least the threshold of days ago and is not marked done. */
  predicate ForwardedStale(t: TaskRow, env: Env) {
    ParseDate(env, t.forwarded).OnDay? && env.today - ParseDate(env, t.forwarded).day >= env.daysLimit
    && !IsDone(t.forwarded)
  }

  /**
   The deadline test raises: the deadline cell parses to NaT, whose comparison with
   today throws, so `check_excel` abandons the row before the forwarded test.
   */
  predicate DeadlineRaises(t: TaskRow, env: Env) {
    ParseDate(env, t.deadline).NaT?
  }

  /**
   The two overdue rules for one task, deadline item first. A deadline test that raises
   leaves the row with nothing; a forwarded date of NaT only loses the forwarded item,
   which is tested last.
   */
  function RowFindings(t: TaskRow, env: Env): (r: seq<Finding>)
    ensures |r| == if DeadlineRaises(t, env) then 0
                   else (if DeadlineDue(t, env) then 1 else 0) + (if ForwardedStale(t, env) then 1 else 0)
    ensures forall i :: 0 <= i < |r| ==> r[i].task == t
    ensures (|r| > 0 && r[0].DeadlinePassed?) <==> DeadlineDue(t, env)
    ensures (|r| > 0 && r[|r| - 1].ForwardedTooLong?) <==> !DeadlineRaises(t, env) && ForwardedStale(t, env)
    ensures forall i :: 0 <= i < |r| && r[i].DeadlinePassed? ==>
      ParseDate(env, t.deadline) == OnDay(r[i].date) && r[i].date <= env.today
    ensures forall i :: 0 <= i < |r| && r[i].ForwardedTooLong? ==>
      ParseDate(env, t.forwarded) == OnDay(r[i].date) && r[i].days == env.today - r[i].date
      && r[i].days >= env.daysLimit
    ensures forall i :: 0 <= i < |r| && r[i].DeadlinePassed? ==> i == 0
    ensures forall i :: 0 <= i < |r| && r[i].ForwardedTooLong? ==> i == |r| - 1
  {
    var pg := ParseDate(env, t.deadline);
    var cc := ParseDate(env, t.forwarded);
    if t.deadline.Some? && pg.NaT? then []
    else
      var a := if t.deadline.Some? && pg.OnDay? && pg.day <= env.today && !IsDone(t.deadline)
               then [DeadlinePassed(t, pg.day)] else [];
      var b := if t.forwarded.Some? && cc.OnDay? && env.today - cc.day >= env.daysLimit && !IsDone(t.forwarded)
               then [ForwardedTooLong(t, cc.day, env.today - cc.day)] else [];
      a + b
  }

  /** One data row's findings; none for a row that does not extract. */
  function RowItems(row: seq<Cell>, m: map<string, nat>, env: Env): seq<Finding> {
    match Extract(row, m)
    case None => []
    case Some(t) => RowFindings(t, env)
  }

  /** Reference definition of the scan: each data row's findings, in row order. */
  function Overdue(m: map<string, nat>, rows: seq<seq<Cell>>, env: Env): seq<Finding>
    decreases |rows|
  {
    if |rows| == 0 then []
    else Overdue(m, rows[..|rows| - 1], env) + RowItems(rows[|rows| - 1], m, env)
  }

  /** The row loop of `check_excel`: rows whose lookups fail are skipped and the loop goes on. */
  method CollectOverdue(headers: seq<Value>, rows: seq<seq<Cell>>, env: Env) returns (items: seq<Finding>)
    ensures items == Overdue(ColMap(headers), rows, env)
    ensures |items| <= 2 * |rows|
  {
    var m := ColMap(headers);
    items := [];
    var i := 0;
    while i < |rows|
      invariant 0 <= i <= |rows|
      invariant items == Overdue(m, rows[..i], env)
      invariant |items| <= 2 * i
    {
      assert rows[..i + 1][..i] == rows[..i];
      var t := Extract(rows[i], m);
      if t.Some? {
        items := items + RowFindings(t.value, env);
      }
      i := i + 1;
    }
    assert rows[..|rows|] == rows;
  }

  /** The scan is compositional: the findings of two blocks of rows concatenate. */
  lemma {:induction false} OverdueAppend(m: map<string, nat>, xs: seq<seq<Cell>>, ys: seq<seq<Cell>>, env: Env)
    ensures Overdue(m, xs + ys, env) == Overdue(m, xs, env) + Overdue(m, ys, env)
    decreases |ys|
  {
    if |ys| == 0 {
      assert xs + ys == xs;
    } else {
      var ys' := ys[..|ys| - 1];
      AppendInit(xs, ys);
      OverdueAppend(m, xs, ys', env);
      ConcatAssoc(Overdue(m, xs, env), Overdue(m, ys', env), RowItems(ys[|ys| - 1], m, env));
    }
  }

  lemma AppendInit<T>(xs: seq<T>, ys: seq<T>)
    requires |ys| > 0
    ensures (xs + ys)[..|xs + ys| - 1] == xs + ys[..|ys| - 1]
    ensures (xs + ys)[|xs + ys| - 1] == ys[|ys| - 1]
  {
  }

  lemma ConcatAssoc<T>(a: seq<T>, b: seq<T>, c: seq<T>)
    ensures a + b + c == a + (b + c)
  {
  }

  /** A row too short for a mapped column adds no finding at all. */
  lemma ShortRowSkipped(m: map<string, nat>, rows: seq<seq<Cell>>, row: seq<Cell>, env: Env, name: string)
    requires name in Columns && name in m && m[name] >= |row|
    ensures Overdue(m, rows + [row], env) == Overdue(m, rows, env)
  {
    assert (rows + [row])[..|rows|] == rows;
    assert Extract(row, m).None?;
  }

  /** Every finding of the scan comes from one data row whose task it carries. */
  lemma {:induction false} OverdueFromRows(m: map<string, nat>, rows: seq<seq<Cell>>, env: Env, k: nat)
    requires k < |Overdue(m, rows, env)|
    ensures exists i :: (0 <= i < |rows| && Extract(rows[i], m).Some?
                         && Overdue(m, rows, env)[k] in RowFindings(Extract(rows[i], m).value, env))
    decreases |rows|
  {
    var init := rows[..|rows| - 1];
    var last := rows[|rows| - 1];
    var front := Overdue(m, init, env);
    if k < |front| {
      OverdueFromRows(m, init, env, k);
      var i :| 0 <= i < |init| && Extract(init[i], m).Some? && front[k] in RowFindings(Extract(init[i], m).value, env);
      assert rows[i] == init[i];
    } else {
      var t := Extract(last, m);
      assert t.Some?;
      assert Overdue(m, rows, env)[k] == RowFindings(t.value, env)[k - |front|];
    }
  }

  /** No extracting row has a date cell that parses to a day. */
  predicate Undated(m: map<string, nat>, rows: seq<seq<Cell>>, env: Env) {
    forall i :: 0 <= i < |rows| && Extract(rows[i], m).Some? ==>
      !ParseDate(env, Extract(rows[i], m).value.deadline).OnDay?
      && !ParseDate(env, Extract(rows[i], m).value.forwarded).OnDay?
  }

  /**
   Rows whose own two date cells give no day (nothing, or NaT) produce no finding,
   whatever the parser makes of other values.
   */
  lemma {:induction false} UnparsedDatesNoFindings(m: map<string, nat>, rows: seq<seq<Cell>>, env: Env)
    requires Undated(m, rows, env)
    ensures Overdue(m, rows, env) == []
    decreases |rows|
  {
    if |rows| > 0 {
      var init := rows[..|rows| - 1];
      assert forall i :: 0 <= i < |init| ==> init[i] == rows[i];
      UnparsedDatesNoFindings(m, init, env);
      var t := Extract(rows[|rows| - 1], m);
      if t.Some? {
        assert |RowFindings(t.value, env)| == 0;
      }
    }
  }
}
