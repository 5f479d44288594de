/**
 Report assembly of `check_excel`: each finding rendered as an HTML block, a header
 prepended, blocks joined by a blank line, the message cut into pieces of at most
 4000 characters, and the three-way choice when nothing is overdue.
 */
module Report {
  import opened Strings
  import opened Escape
  import opened CellStatus
  import opened Rows
  import opened Markup

  /** The transport's message size limit, in characters. */
  const MaxChunk: nat := 4000

  /** The separator between two rendered findings. */
  const Separator: string := "\n\n"

  const WeeklyHeader: string := "📋 Сводка задач на неделю:\n\n"
  const WeeklyAllClear: string := "✅ Все задачи на этой неделе в срок."
  const DailyAllClear: string := "✅ На сегодня просроченных задач нет."

  /** The worksheet the scan requires. */
  const SheetName: string := "Согласование документации"

  /** The last line of a block: the deadline date, or the forwarded date and the day count. */
  function Trailer(f: Finding, showDate: int -> string): string {
    match f
    case DeadlinePassed(_, d) => "⏰ Срок от ПГ: " + HtmlEscape(showDate(d))
    case ForwardedTooLong(_, d, n) =>
      "⏰ Направлено в ЦЦО: " + HtmlEscape(showDate(d)) + " (" + HtmlEscape(IntToString(n)) + " дней)"
  }

  /** Everything of a block after the object name; it holds no `<`. */
  function Body(f: Finding, showDate: int -> string): string {
    "\n📝 " + HtmlEscape(f.task.structure) +
    "\n👤 " + HtmlEscape(f.task.responsible) +
    "\n✉ " + HtmlEscape(f.task.subject) +
    "\n" + Trailer(f, showDate)
  }

  /** A finding's block, its object name wrapped in `open` and `close`. */
  function Block(f: Finding, showDate: int -> string, open: string, close: string): string {
    "📍 " + (open + (HtmlEscape(f.task.objectName) + (close + Body(f, showDate))))
  }

  /** The block as sent with HTML formatting: the object name in bold. */
  function RenderFinding(f: Finding, showDate: int -> string): string {
    Block(f, showDate, "<b>", "</b>")
  }

  /** The same block with no emphasis, as the plain-text fallback shows it. */
  function PlainFinding(f: Finding, showDate: int -> string): string {
    Block(f, showDate, "", "")
  }

  /** The message header: the item count (as written, one less) and date daily, else the weekly label. */
  function Header(notifyToday: bool, count: int, todayText: string): string {
    if notifyToday then "⚠️ " + IntToString(count - 1) + " Просроченные задачи на сегодня " + todayText + ":\n\n"
    else WeeklyHeader
  }

  /** The rendered blocks, in finding order. */
  function Items(findings: seq<Finding>, showDate: int -> string): seq<string> {
    seq(|findings|, i requires 0 <= i < |findings| => RenderFinding(findings[i], showDate))
  }

  /** The blocks as the plain-text fallback shows them. */
  function PlainItems(findings: seq<Finding>, showDate: int -> string): seq<string> {
    seq(|findings|, i requires 0 <= i < |findings| => PlainFinding(findings[i], showDate))
  }

  /** `header + "\n\n".join(overdue_items)`. */
  function Compose(findings: seq<Finding>, notifyToday: bool, today: int, showDate: int -> string): string {
    Header(notifyToday, |findings|, showDate(today)) + Join(Items(findings, showDate), Separator)
  }

  function Min(a: int, b: int): int {
    if a <= b then a else b
  }

  /** `[msg[i:i+4000] for i in range(0, len(msg), 4000)]`, taken one piece at a time. */
  function Chunks(msg: string): seq<string>
    decreases |msg|
  {
    if |msg| == 0 then []
    else
      var cut := Min(MaxChunk, |msg|);
      [msg[..cut]] + Chunks(msg[cut..])
  }

  /** There are ceil(len(msg) / 4000) pieces. */
  lemma {:induction false} ChunkCount(msg: string)
    ensures |Chunks(msg)| == (|msg| + MaxChunk - 1) / MaxChunk
    decreases |msg|
  {
    if |msg| > MaxChunk {
      ChunkCount(msg[MaxChunk..]);
    }
  }

  /** Piece `i` is the slice of `msg` starting at offset 4000 * i, as in the comprehension. */
  lemma {:induction false} ChunkAt(msg: string, i: nat)
    requires i < |Chunks(msg)|
    ensures MaxChunk * i < |msg|
    ensures Chunks(msg)[i] == msg[MaxChunk * i .. Min(MaxChunk * i + MaxChunk, |msg|)]
    decreases |msg|
  {
    var cut := Min(MaxChunk, |msg|);
    if i > 0 {
      var rest := msg[cut..];
      assert Chunks(msg)[i] == Chunks(rest)[i - 1];
      ChunkAt(rest, i - 1);
      assert |msg| > MaxChunk && cut == MaxChunk;
      var lo := MaxChunk * (i - 1);
      var hi := Min(lo + MaxChunk, |rest|);
      assert MaxChunk * i == cut + lo;
      assert Min(MaxChunk * i + MaxChunk, |msg|) == cut + hi;
      assert rest[lo..hi] == msg[cut + lo..cut + hi];
    }
  }

  /** Every piece holds 1 to 4000 characters, and every piece but the last exactly 4000. */
  lemma ChunkSizes(msg: string)
    ensures forall i :: 0 <= i < |Chunks(msg)| ==> 1 <= |Chunks(msg)[i]| <= MaxChunk
    ensures forall i :: 0 <= i < |Chunks(msg)| - 1 ==> |Chunks(msg)[i]| == MaxChunk
  {
    ChunkCount(msg);
    forall i | 0 <= i < |Chunks(msg)|
      ensures 1 <= |Chunks(msg)[i]| <= MaxChunk
      ensures i < |Chunks(msg)| - 1 ==> |Chunks(msg)[i]| == MaxChunk
    {
      ChunkAt(msg, i);
    }
  }

  /** Sending the pieces in order sends the whole message: they concatenate back to it. */
  lemma {:induction false} ChunksConcat(msg: string)
    ensures Flatten(Chunks(msg)) == msg
    decreases |msg|
  {
    if |msg| > 0 {
      var cut := Min(MaxChunk, |msg|);
      ChunksConcat(msg[cut..]);
      assert Chunks(msg) == [msg[..cut]] + Chunks(msg[cut..]);
      assert ([msg[..cut]] + Chunks(msg[cut..]))[1..] == Chunks(msg[cut..]);
      assert msg[..cut] + msg[cut..] == msg;
    }
  }

  /** Every piece is the slice of the message at its fixed 4000-character offset. */
  lemma ChunkSlices(msg: string)
    ensures |Chunks(msg)| == (|msg| + MaxChunk - 1) / MaxChunk
    ensures forall i :: 0 <= i < |Chunks(msg)| ==>
      MaxChunk * i < |msg| && Chunks(msg)[i] == msg[MaxChunk * i .. Min(MaxChunk * i + MaxChunk, |msg|)]
  {
    ChunkCount(msg);
    forall i | 0 <= i < |Chunks(msg)|
      ensures MaxChunk * i < |msg| && Chunks(msg)[i] == msg[MaxChunk * i .. Min(MaxChunk * i + MaxChunk, |msg|)]
    {
      ChunkAt(msg, i);
    }
  }

  /** A message of 8000 characters goes out as two full pieces; one of 4001 as 4000 and 1. */
  lemma ChunkBoundaries(m8000: string, m4001: string)
    requires |m8000| == 8000 && |m4001| == 4001
    ensures |Chunks(m8000)| == 2 && |Chunks(m8000)[0]| == 4000 && |Chunks(m8000)[1]| == 4000
    ensures |Chunks(m4001)| == 2 && |Chunks(m4001)[0]| == 4000 && |Chunks(m4001)[1]| == 1
  {
    ChunkSizes(m8000);
    ChunkCount(m8000);
    ChunkSizes(m4001);
    ChunkCount(m4001);
    ChunkAt(m4001, 1);
  }

  /** What a check sends: the message pieces, one fixed notice, or nothing. */
  datatype Outgoing = Chunked(chunks: seq<string>) | Notice(text: string) | Silent

  /** The branch after the row loop: report the items, or the all-clear of the mode, or stay silent. */
  function Deliver(findings: seq<Finding>, notifyToday: bool, weekSummary: bool, today: int,
                   showDate: int -> string): (r: Outgoing)
    ensures |findings| > 0 ==> r.Chunked? && r.chunks == Chunks(Compose(findings, notifyToday, today, showDate))
    ensures |findings| > 0 ==> Flatten(r.chunks) == Compose(findings, notifyToday, today, showDate)
    ensures |findings| > 0 ==> forall i :: 0 <= i < |r.chunks| ==> 1 <= |r.chunks[i]| <= MaxChunk
    ensures |findings| > 0 ==>
      var msg := Compose(findings, notifyToday, today, showDate);
      |r.chunks| == (|msg| + MaxChunk - 1) / MaxChunk
      && forall i :: 0 <= i < |r.chunks| ==>
           MaxChunk * i < |msg| && r.chunks[i] == msg[MaxChunk * i .. Min(MaxChunk * i + MaxChunk, |msg|)]
    ensures |findings| == 0 && weekSummary ==> r == Notice(WeeklyAllClear)
    ensures |findings| == 0 && !weekSummary && notifyToday ==> r == Notice(DailyAllClear)
    ensures |findings| == 0 && !weekSummary && !notifyToday ==> r == Silent
  {
    if |findings| > 0 then
      var msg := Compose(findings, notifyToday, today, showDate);
      ChunksConcat(msg);
      ChunkSizes(msg);
      ChunkSlices(msg);
      Chunked(Chunks(msg))
    else if weekSummary then Notice(WeeklyAllClear)
    else if notifyToday then Notice(DailyAllClear)
    else Silent
  }

  /** The daily header shows one less than the number of items it introduces. */
  lemma DailyHeaderCountsOneLess(count: nat, todayText: string)
    requires count > 0
    ensures Header(true, count, todayText) ==
      "⚠️ " + NatToString(count - 1) + " Просроченные задачи на сегодня " + todayText + ":\n\n"
    ensures DecimalValue(NatToString(count - 1)) == count - 1
  {
    NatToStringValue(count - 1);
  }

  lemma EscapedHasNoLt(s: string)
    ensures '<' !in HtmlEscape(s)
  {
    HtmlEscapeNoMarkup(s);
  }

  lemma TrailerHasNoLt(f: Finding, showDate: int -> string)
    ensures '<' !in Trailer(f, showDate)
  {
    EscapedHasNoLt(showDate(f.date));
    if f.ForwardedTooLong? {
      EscapedHasNoLt(IntToString(f.days));
    }
  }

  lemma BodyHasNoLt(f: Finding, showDate: int -> string)
    ensures '<' !in Body(f, showDate)
  {
    EscapedHasNoLt(f.task.structure);
    EscapedHasNoLt(f.task.responsible);
    EscapedHasNoLt(f.task.subject);
    TrailerHasNoLt(f, showDate);
  }

  lemma BlockShapes(f: Finding, showDate: int -> string)
    ensures RenderFinding(f, showDate)
         == "📍 " + ("<b>" + (HtmlEscape(f.task.objectName) + ("</b>" + Body(f, showDate))))
    ensures PlainFinding(f, showDate) == "📍 " + (HtmlEscape(f.task.objectName) + Body(f, showDate))
  {
    assert "" + (HtmlEscape(f.task.objectName) + ("" + Body(f, showDate)))
        == HtmlEscape(f.task.objectName) + Body(f, showDate);
  }

  /** The fallback turns a rendered block into exactly its plain form. */
  lemma StripBoldFinding(f: Finding, showDate: int -> string)
    ensures StripBold(RenderFinding(f, showDate)) == PlainFinding(f, showDate)
  {
    EscapedHasNoLt(f.task.objectName);
    BodyHasNoLt(f, showDate);
    BlockShapes(f, showDate);
    StripBoldEmphasis("📍 ", HtmlEscape(f.task.objectName), Body(f, showDate));
  }

  lemma HeaderHasNoLt(notifyToday: bool, count: int, todayText: string)
    requires '<' !in todayText
    ensures '<' !in Header(notifyToday, count, todayText)
  {
    if notifyToday {
      var d := IntToString(count - 1);
      IntToStringNoLt(count - 1);
      var a, b, c := "⚠️ ", " Просроченные задачи на сегодня ", ":\n\n";
      assert '<' !in a && '<' !in b && '<' !in c;
      assert Header(notifyToday, count, todayText) == a + d + b + todayText + c;
    }
  }

  /** One rendered block followed by a separator and more text, under the fallback. */
  lemma StripBoldFindingThen(f: Finding, showDate: int -> string, more: string)
    ensures StripBold(RenderFinding(f, showDate) + Separator + more)
         == PlainFinding(f, showDate) + Separator + StripBold(more)
  {
    EscapedHasNoLt(f.task.objectName);
    BodyHasNoLt(f, showDate);
    BlockShapes(f, showDate);
    StripBoldBlockThen("📍 ", HtmlEscape(f.task.objectName), Body(f, showDate), Separator, more);
  }

  /** The fallback over the joined blocks gives the joined plain blocks. */
  lemma {:induction false} StripBoldBlocks(fs: seq<Finding>, showDate: int -> string)
    ensures StripBold(Join(Items(fs, showDate), Separator)) == Join(PlainItems(fs, showDate), Separator)
    decreases |fs|
  {
    if |fs| == 1 {
      StripBoldFinding(fs[0], showDate);
    } else if |fs| > 1 {
      assert Items(fs, showDate)[1..] == Items(fs[1..], showDate);
      assert PlainItems(fs, showDate)[1..] == PlainItems(fs[1..], showDate);
      StripBoldBlocks(fs[1..], showDate);
      StripBoldFindingThen(fs[0], showDate, Join(Items(fs[1..], showDate), Separator));
    }
  }

  /** A message that fits in one piece goes out whole. */
  lemma SingleChunk(msg: string)
    requires 0 < |msg| <= MaxChunk
    ensures Chunks(msg) == [msg]
  {
    assert msg[..|msg|] == msg;
  }

  /**
   The fallback over a whole message: the header is kept and every block loses its
   emphasis. For a message within 4000 characters this is exactly what the single
   fallback send shows.
   */
  lemma StripBoldMessage(fs: seq<Finding>, notifyToday: bool, weekSummary: bool, today: int,
                         showDate: int -> string)
    requires '<' !in showDate(today)
    ensures StripBold(Compose(fs, notifyToday, today, showDate))
         == Header(notifyToday, |fs|, showDate(today)) + Join(PlainItems(fs, showDate), Separator)
    ensures |fs| > 0 && |Compose(fs, notifyToday, today, showDate)| <= MaxChunk ==>
      Deliver(fs, notifyToday, weekSummary, today, showDate).chunks == [Compose(fs, notifyToday, today, showDate)]
  {
    var h := Header(notifyToday, |fs|, showDate(today));
    HeaderHasNoLt(notifyToday, |fs|, showDate(today));
    StripBoldSkip(h, Join(Items(fs, showDate), Separator));
    StripBoldBlocks(fs, showDate);
    var msg := Compose(fs, notifyToday, today, showDate);
    if |fs| > 0 && |msg| <= MaxChunk {
      assert |msg| > 0 by { assert |h| > 0; }
      SingleChunk(msg);
    }
  }

  /** The row fields reach the message intact: unescaping the bold part gives the object name. */
  lemma RenderKeepsObjectName(f: Finding, showDate: int -> string)
    ensures exists x :: (RenderFinding(f, showDate) == "📍 " + ("<b>" + (x + ("</b>" + Body(f, showDate))))
                         && HtmlUnescape(x) == f.task.objectName)
  {
    HtmlEscapeRoundTrip(f.task.objectName);
    var x := HtmlEscape(f.task.objectName);
    assert RenderFinding(f, showDate) == "📍 " + ("<b>" + (x + ("</b>" + Body(f, showDate))));
  }

  /** The worksheet snapshot: its first row holds the headers, the rest are data rows. */
  datatype Sheet = Sheet(headerRow: seq<Cell>, dataRows: seq<seq<Cell>>)

  /** `[cell.value for cell in ws[1]]`. */
  function HeaderValues(s: Sheet): seq<Value> {
    seq(|s.headerRow|, i requires 0 <= i < |s.headerRow| => s.headerRow[i].value)
  }

  /** A check either stops with a message to the user or delivers its report. */
  datatype CheckResult = Aborted(message: string) | Reported(out: Outgoing)

  /** The sheet check and the scan of `check_excel`, after the workbook has loaded. */
  function CheckWorkbook(sheets: map<string, Sheet>, env: Env, notifyToday: bool, weekSummary: bool,
                         showDate: int -> string): CheckResult
  {
    if SheetName !in sheets then Aborted("❌ Лист '" + SheetName + "' не найден")
    else
      var ws := sheets[SheetName];
      Reported(Deliver(Overdue(ColMap(HeaderValues(ws)), ws.dataRows, env),
                       notifyToday, weekSummary, env.today, showDate))
  }

  /** Without the worksheet the check stops with the sheet-missing message. */
  lemma MissingSheetAborts(sheets: map<string, Sheet>, env: Env, notifyToday: bool, weekSummary: bool,
                           showDate: int -> string)
    requires SheetName !in sheets
    ensures CheckWorkbook(sheets, env, notifyToday, weekSummary, showDate)
         == Aborted("❌ Лист 'Согласование документации' не найден")
  {
    SheetMissingText();
  }

  lemma SheetMissingText()
    ensures "❌ Лист '" + SheetName + "' не найден" == "❌ Лист 'Согласование документации' не найден"
  {
    var a, b := "❌ Лист '", "' не найден";
    assert |a + SheetName + b| == 44;
    forall k | 0 <= k < 44
      ensures (a + SheetName + b)[k] == "❌ Лист 'Согласование документации' не найден"[k]
    {
    }
  }

  /**
   A present sheet whose extracting rows carry no date sends the all-clear of the mode,
   or nothing.
   */
  lemma UndatedSheetAllClear(sheets: map<string, Sheet>, env: Env, notifyToday: bool, weekSummary: bool,
                             showDate: int -> string)
    requires SheetName in sheets
    requires Undated(ColMap(HeaderValues(sheets[SheetName])), sheets[SheetName].dataRows, env)
    ensures CheckWorkbook(sheets, env, notifyToday, weekSummary, showDate)
         == Reported(if weekSummary then Notice(WeeklyAllClear)
                     else if notifyToday then Notice(DailyAllClear) else Silent)
  {
    var ws := sheets[SheetName];
    UnparsedDatesNoFindings(ColMap(HeaderValues(ws)), ws.dataRows, env);
  }

  /** With the sheet present, what is sent reassembles into the composed report of the scan. */
  lemma PresentSheetReports(sheets: map<string, Sheet>, env: Env, notifyToday: bool, weekSummary: bool,
                            showDate: int -> string)
    requires SheetName in sheets
    requires |Overdue(ColMap(HeaderValues(sheets[SheetName])), sheets[SheetName].dataRows, env)| > 0
    ensures var r := CheckWorkbook(sheets, env, notifyToday, weekSummary, showDate);
            var fs := Overdue(ColMap(HeaderValues(sheets[SheetName])), sheets[SheetName].dataRows, env);
            r.Reported? && r.out.Chunked?
            && Flatten(r.out.chunks) == Compose(fs, notifyToday, env.today, showDate)
  {
  }
}
