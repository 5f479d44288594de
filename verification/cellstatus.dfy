/**
 The "done" classifier `is_done`: a task cell counts as completed when its font is
 black or its fill looks green. Only the cell's style snapshot matters.
 */
module CellStatus {
  import opened Wrappers
  import opened Strings

  /** A cell's value: empty (Python `None`), a string, or any other value by its `str()`. */
  datatype Value = Blank | Text(s: string) | Other(shown: string)

  /**
   A worksheet cell: its value and the style attributes `is_done` reads.
   `None` stands for an attribute that is missing or `None` anywhere along its chain
   (`cell.font.color.rgb`, `cell.fill.fgColor.rgb`); `styleFault` for a style read
   that raises.
   */
  datatype Cell = Cell(
    value: Value,
    fontRgb: Option<string>,
    fillType: Option<string>,
    fillRgb: Option<string>,
    styleFault: bool)

  /** The font colours that count as black, after upper-casing. */
  const BlackCodes: seq<string> := ["FF000000", "00000000", "000000", "FF00000000"]

  /** Colour prefixes that count as a green fill. */
  const GreenPrefixes: seq<string> := ["FF00", "00FF", "0092", "FF92"]

  /** Colour fragments that count as a green fill wherever they occur. */
  const GreenMarks: seq<string> := ["92D050", "00FF00"]

  /** The font-colour rule: a present, non-empty rgb whose upper-case form is a black code. */
  predicate FontBlack(c: Cell) {
    match c.fontRgb
    case None => false
    case Some(rgb) => rgb != "" && Upper(rgb) in BlackCodes
  }

  /** The fill rule: an active fill type and a present, non-empty rgb that looks green. */
  predicate GreenFill(c: Cell) {
    && c.fillType.Some?
    && match c.fillRgb
       case None => false
       case Some(rgb) =>
         var u := Upper(rgb);
         && rgb != ""
         && ((exists p :: p in GreenPrefixes && p <= u) || (exists g :: g in GreenMarks && Contains(u, g)))
  }

  /** `is_done(cell)`: false for a missing cell or a failing style read, else black font or green fill. */
  predicate IsDone(cell: Option<Cell>) {
    match cell
    case None => false
    case Some(c) => !c.styleFault && (FontBlack(c) || GreenFill(c))
  }

  lemma MissingCellNotDone()
    ensures !IsDone(None)
  {
  }

  /** Any exception while reading the style makes the cell "not done". */
  lemma StyleFaultNotDone(c: Cell)
    requires c.styleFault
    ensures !IsDone(Some(c))
  {
  }

  /** A readable cell is done exactly when one of the two colour rules fires. */
  lemma DoneIffRule(c: Cell)
    requires !c.styleFault
    ensures IsDone(Some(c)) <==> FontBlack(c) || GreenFill(c)
  {
  }

  /** An absent or empty font colour never counts as black. */
  lemma AbsentFontNotBlack(c: Cell)
    requires c.fontRgb == None || c.fontRgb == Some("")
    ensures !FontBlack(c)
  {
  }

  predicate IsF(ch: char) {
    ch == 'F' || ch == 'f'
  }

  predicate AllZeros(s: string) {
    forall i :: 0 <= i < |s| ==> s[i] == '0'
  }

  /** Case-insensitive black, spelled out character by character on the stored colour. */
  predicate BlackSpelled(s: string) {
    || (|s| == 6 && AllZeros(s))
    || (|s| == 8 && AllZeros(s[2..]) && ((IsF(s[0]) && IsF(s[1])) || (s[0] == '0' && s[1] == '0')))
    || (|s| == 10 && AllZeros(s[2..]) && IsF(s[0]) && IsF(s[1]))
  }

  lemma UpperCharFacts(ch: char)
    ensures UpperChar(ch) == '0' <==> ch == '0'
    ensures UpperChar(ch) == 'F' <==> IsF(ch)
  {
  }

  lemma UpperIsZeros(s: string, k: nat)
    requires k <= |s|
    ensures AllZeros(Upper(s)[k..]) <==> AllZeros(s[k..])
  {
    forall i | k <= i < |s|
      ensures Upper(s)[i] == '0' <==> s[i] == '0'
    {
      UpperCharFacts(s[i]);
    }
    if AllZeros(Upper(s)[k..]) {
      forall i | 0 <= i < |s| - k
        ensures s[k..][i] == '0'
      {
        assert Upper(s)[k..][i] == Upper(s)[k + i];
      }
    }
    if AllZeros(s[k..]) {
      forall i | 0 <= i < |s| - k
        ensures Upper(s)[k..][i] == '0'
      {
        assert s[k..][i] == s[k + i];
      }
    }
  }

  lemma ZerosLiteral(t: string, k: nat)
    requires k <= |t|
    requires forall i :: k <= i < |t| ==> t[i] == '0'
    ensures AllZeros(t[k..])
  {
    forall i | 0 <= i < |t| - k
      ensures t[k..][i] == '0'
    {
      assert t[k..][i] == t[k + i];
    }
  }

  lemma {:induction false} EqualByChars(u: string, t: string)
    requires |u| == |t|
    requires forall i :: 0 <= i < |u| ==> u[i] == t[i]
    ensures u == t
  {
  }

  lemma BlackCodeSpelled(s: string)
    requires Upper(s) in BlackCodes
    ensures BlackSpelled(s)
  {
    var u := Upper(s);
    UpperCharFacts(s[0]);
    UpperCharFacts(s[1]);
    UpperIsZeros(s, 2);
    UpperIsZeros(s, 0);
    assert s[0..] == s && u[0..] == u;
    if u == "000000" {
      ZerosLiteral("000000", 0);
    } else if u == "00000000" {
      ZerosLiteral("00000000", 2);
    } else if u == "FF000000" {
      ZerosLiteral("FF000000", 2);
    } else {
      ZerosLiteral("FF00000000", 2);
    }
  }

  lemma SpelledBlackCode(s: string)
    requires BlackSpelled(s)
    ensures Upper(s) in BlackCodes
  {
    var u := Upper(s);
    UpperCharFacts(s[0]);
    UpperCharFacts(s[1]);
    if |s| == 6 {
      UpperIsZeros(s, 0);
      assert s[0..] == s && u[0..] == u;
      EqualByChars(u, "000000");
    } else {
      UpperIsZeros(s, 2);
      forall i | 2 <= i < |s| ensures u[i] == '0' { assert u[2..][i - 2] == u[i]; }
      if |s| == 8 && IsF(s[0]) {
        EqualByChars(u, "FF000000");
      } else if |s| == 8 {
        EqualByChars(u, "00000000");
      } else {
        EqualByChars(u, "FF00000000");
      }
    }
  }

  /**
   The font rule accepts exactly the stored colours "000000", "00000000", "FF00000000"
   and "FF000000", with either letter case for each F.
   */
  lemma FontBlackSpelled(c: Cell)
    ensures FontBlack(c) <==> c.fontRgb.Some? && BlackSpelled(c.fontRgb.value)
  {
    if c.fontRgb.Some? {
      var s := c.fontRgb.value;
      if FontBlack(c) {
        BlackCodeSpelled(s);
      }
      if BlackSpelled(s) {
        SpelledBlackCode(s);
      }
    }
  }

  /** Without a fill type or a non-empty fill colour the fill rule never fires. */
  lemma NoFillNotGreen(c: Cell)
    requires c.fillType == None || c.fillRgb == None || c.fillRgb == Some("")
    ensures !GreenFill(c)
  {
  }

  /** A fill whose colour contains "92D050" or "00FF00" anywhere (any case) is green. */
  lemma GreenMarkAnywhere(c: Cell, i: nat, g: string)
    requires c.fillType.Some? && c.fillRgb.Some?
    requires g in GreenMarks
    requires OccursAt(Upper(c.fillRgb.value), g, i)
    ensures GreenFill(c)
  {
    ContainsIff(Upper(c.fillRgb.value), g);
  }

  /** The prefix test is over-inclusive: a solid black fill "FF000000" counts as green. */
  lemma BlackFillCountsAsGreen(value: Value, font: Option<string>)
    ensures IsDone(Some(Cell(value, font, Some("solid"), Some("FF000000"), false)))
  {
    var c := Cell(value, font, Some("solid"), Some("FF000000"), false);
    assert Upper("FF000000") == "FF000000";
    assert "FF00" in GreenPrefixes && "FF00" <= Upper("FF000000");
    assert GreenFill(c);
  }

  /** A green fill marks a cell done even when its font is red. */
  lemma GreenFillWithRedFont(value: Value)
    ensures IsDone(Some(Cell(value, Some("FFFF0000"), Some("solid"), Some("FF92D050"), false)))
    ensures !FontBlack(Cell(value, Some("FFFF0000"), Some("solid"), Some("FF92D050"), false))
  {
    var c := Cell(value, Some("FFFF0000"), Some("solid"), Some("FF92D050"), false);
    assert Upper("FF92D050") == "FF92D050";
    assert "FF92" in GreenPrefixes && "FF92" <= Upper("FF92D050");
    assert GreenFill(c);
    FontBlackSpelled(c);
  }

  /** Black text marks a cell done whatever its fill. */
  lemma BlackFontDone(value: Value, fillType: Option<string>, fillRgb: Option<string>)
    ensures IsDone(Some(Cell(value, Some("ff000000"), fillType, fillRgb, false)))
  {
    var c := Cell(value, Some("ff000000"), fillType, fillRgb, false);
    FontBlackSpelled(c);
    assert BlackSpelled("ff000000") by {
      ZerosLiteral("ff000000", 2);
    }
  }
}
