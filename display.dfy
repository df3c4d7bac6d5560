/** The display rules of the printout that carry logic: the kilobyte column of the
    attachment listing, the red flag on non-zero numeric spam-detail values, and the
    two-column spam-details grid. Colours and column widths are left to the terminal;
    a printed line is kept as the values it shows. */
module Display {
  import opened Wrappers
  import opened Text
  import opened Numbers
  import opened Failures
  import opened Attachments

  /** One formatted spam-details cell (`field.format(k, v)`, `v` in red when flagged),
      or the empty string that pads an odd grid. */
  datatype Cell = FieldCell(key: String, value: String, flagged: bool) | EmptyCell

  /** One line of the printout. */
  datatype Line =
    | Heading(title: String)
    | FieldLine(name: String, value: String)
    | AttachmentLine(index: String, mimeType: String, kiloBytes: int, file: String)
    | SpamPair(left: Cell, right: Cell)
    | NotFound(qid: String, logName: String)
    | BlankLine

  // ---------------------------------------------------------------------------
  // Attachments: line 85.

  /** The line printed for an attachment whose size `int()` reads. */
  function AttachmentLineFor(a: Attachment): (l: Line)
    requires KiloBytes(a.size).Some?
    ensures l.AttachmentLine? && l.index == a.index && l.file == a.file && l.mimeType == a.mimeType
    ensures l.kiloBytes * 1000 <= IntValue(a.size).value < l.kiloBytes * 1000 + 1000
  {
    AttachmentLine(a.index, a.mimeType, KiloBytes(a.size).value, a.file)
  }

  /** What lines 84 and 85 print for `atts`: one line per attachment in order, until
      the first size `int()` rejects, which raises `ValueError` after the lines before
      it are out. */
  predicate AttachmentListing(atts: seq<Attachment>, lines: seq<Line>, failure: Option<Failure>) {
    && |lines| <= |atts|
    && (forall j :: 0 <= j < |lines| ==> KiloBytes(atts[j].size).Some? && lines[j] == AttachmentLineFor(atts[j]))
    && (failure.None? ==> |lines| == |atts|)
    && (failure.Some? ==>
          |lines| < |atts| && KiloBytes(atts[|lines|].size).None? && failure.value == NotAnInteger(atts[|lines|].size))
  }

  /** Lines 84 and 85 of `main`. */
  method AttachmentRows(atts: seq<Attachment>) returns (lines: seq<Line>, failure: Option<Failure>)
    ensures AttachmentListing(atts, lines, failure)
  {
    lines := [];
    var k := 0;
    while k < |atts|
      invariant 0 <= k <= |atts| && |lines| == k
      invariant forall j :: 0 <= j < k ==> KiloBytes(atts[j].size).Some? && lines[j] == AttachmentLineFor(atts[j])
    {
      var a := atts[k];
      match KiloBytes(a.size)
      case None =>
        return lines, Some(NotAnInteger(a.size));
      case Some(kb) =>
        lines := lines + [AttachmentLine(a.index, a.mimeType, kb, a.file)];
      k := k + 1;
    }
    failure := None;
  }

  // ---------------------------------------------------------------------------
  // The flag: line 90.

  /** `v.isdigit() or v[1:].isdigit()`. */
  predicate LooksNumeric(v: String) {
    IsDigits(v) || (|v| >= 1 && IsDigits(v[1..]))
  }

  /** `(v.isdigit() or v[1:].isdigit()) and int(v) != 0`, evaluated left to right:
      `int()` is reached only for a value that looks numeric, and raises `ValueError`
      on one whose first character is neither a digit, a sign nor whitespace. */
  function Flag(v: String): (r: Result<bool, Failure>)
    ensures r.Err? ==> r.error == NotAnInteger(v)
    ensures r == Ok(true) ==> LooksNumeric(v)
  {
    if LooksNumeric(v) then
      match IntValue(v)
      case None => Err(NotAnInteger(v))
      case Some(n) => Ok(n != 0)
    else Ok(false)
  }

  /** A sign or whitespace in front of the digits, which `int()` accepts. */
  predicate SignOrSpace(c: char) {
    c == '+' || c == '-' || IsSpace(c)
  }

  /** `int()` of a sign or a whitespace character followed by digits. */
  lemma IntValueOfLead(v: String)
    requires |v| >= 1 && IsDigits(v[1..]) && !IsDigit(v[0])
    ensures SignOrSpace(v[0]) ==> IntValue(v).Some? && (IntValue(v).value == 0 <==> DigitsValue(v[1..]) == 0)
    ensures SignOrSpace(v[0]) ==>
      IntValue(v) == Some(if v[0] == '-' then -(DigitsValue(v[1..]) as int) else DigitsValue(v[1..]) as int)
    ensures !SignOrSpace(v[0]) ==> IntValue(v).None?
  {
    assert IsDigit(v[|v| - 1]);
    if IsSpace(v[0]) {
      var t := v[1..];
      assert TrimStart(t) == t;
      assert TrimEnd(t) == t;
      assert Trim(v) == t;
    } else {
      assert TrimStart(v) == v;
      assert TrimEnd(v) == v;
      assert Trim(v) == v;
    }
  }

  /** A digit string is flagged exactly when one of its digits is not `0`. */
  lemma FlagOfDigits(v: String)
    requires IsDigits(v)
    ensures Flag(v) == Ok(exists k :: 0 <= k < |v| && v[k] != '0')
  {
    IntValueOfDigits(v);
    ValueZeroIffZeroDigits(v);
  }

  /** A value with one leading non-digit in front of digits: flagged when that
      character is a sign or whitespace and a digit is not `0`; not flagged for a sign
      or whitespace before zeros; `ValueError` for any other leading character. */
  lemma FlagOfPrefixed(v: String)
    requires |v| >= 1 && !IsDigit(v[0]) && IsDigits(v[1..])
    ensures Flag(v).Err? <==> !SignOrSpace(v[0])
    ensures Flag(v) == Ok(true) <==> SignOrSpace(v[0]) && exists k :: 1 <= k < |v| && v[k] != '0'
  {
    IntValueOfLead(v);
    ValueZeroIffZeroDigits(v[1..]);
    assert !IsDigits(v);
    if exists k :: 1 <= k < |v| && v[k] != '0' {
      var k :| 1 <= k < |v| && v[k] != '0';
      assert v[1..][k - 1] == v[k];
    }
    if exists k :: 0 <= k < |v[1..]| && v[1..][k] != '0' {
      var k :| 0 <= k < |v[1..]| && v[1..][k] != '0';
      assert v[k + 1] == v[1..][k];
    }
  }

  /** A value that does not look numeric is never flagged and never reaches `int()`. */
  lemma FlagOfText(v: String)
    requires !IsDigits(v) && !(|v| >= 1 && IsDigits(v[1..]))
    ensures Flag(v) == Ok(false)
  {
  }

  /** `0` is not flagged, `-3` is, and `clean` is not. */
  lemma FlagExamples()
    ensures Flag("0") == Ok(false)
    ensures Flag("-3") == Ok(true)
    ensures Flag("clean") == Ok(false)
  {
    FlagOfDigits("0");
    assert "-3"[1..] == "3";
    FlagOfPrefixed("-3");
    assert "-3"[1] != '0';
    assert "clean"[1..] == "lean";
    assert !IsDigit("clean"[0]) && !IsDigit("lean"[0]);
    FlagOfText("clean");
  }

  // ---------------------------------------------------------------------------
  // The spam-details grid: lines 88 to 95.

  /** Every value's flag could be computed. */
  predicate FlagsRead(details: seq<(String, String)>) {
    forall k :: 0 <= k < |details| ==> Flag(details[k].1).Ok?
  }

  /** `f` is the failure of the first value whose flag cannot be computed. */
  predicate FirstBadFlag(details: seq<(String, String)>, f: Failure) {
    exists k :: 0 <= k < |details| && Flag(details[k].1) == Err(f) && forall j :: 0 <= j < k ==> Flag(details[j].1).Ok?
  }

  /** The cell of the `k`-th pair, or the padding past the end. */
  function CellOrPad(details: seq<(String, String)>, k: nat): (c: Cell)
    requires FlagsRead(details)
    ensures k < |details| ==> c.FieldCell? && c.key == details[k].0 && c.value == details[k].1
    ensures k < |details| ==> c.flagged == Flag(details[k].1).value
    ensures k >= |details| ==> c == EmptyCell
  {
    if k < |details| then FieldCell(details[k].0, details[k].1, Flag(details[k].1).value) else EmptyCell
  }

  /** The grid shows the cells two to a row in their order: row `j` holds cells `2j`
      and `2j + 1`, the last right-hand cell of an odd grid being the padding. */
  predicate GridOf(rows: seq<Line>, details: seq<(String, String)>)
    requires FlagsRead(details)
  {
    && |rows| == (|details| + 1) / 2
    && forall j :: 0 <= j < |rows| ==> rows[j] == SpamPair(CellOrPad(details, 2 * j), CellOrPad(details, 2 * j + 1))
  }

  /** What lines 88 to 95 print for `details`: nothing when a value's flag cannot be
      computed, with the failure of the first such value; otherwise the grid. */
  predicate SpamListing(details: seq<(String, String)>, rows: seq<Line>, failure: Option<Failure>) {
    && (failure.None? <==> FlagsRead(details))
    && (failure.Some? ==> rows == [] && FirstBadFlag(details, failure.value))
    && (failure.None? ==> FlagsRead(details) && GridOf(rows, details))
  }

  /** Lines 88 to 95 of `main`: the cells are built in order (the first value `int()`
      rejects raises before anything is printed), an odd list gets one empty cell, and
      the list is printed two cells to a line. */
  method SpamGrid(details: seq<(String, String)>) returns (rows: seq<Line>, failure: Option<Failure>)
    ensures SpamListing(details, rows, failure)
  {
    var sd;
    sd, failure := BuildCells(details);
    if failure.Some? {
      return [], failure;
    }
    if |sd| % 2 == 1 {
      sd := sd + [EmptyCell];
    }
    assert forall j :: 0 <= j < |sd| ==> sd[j] == CellOrPad(details, j);
    rows := PairUp(sd);
  }

  /** Lines 88 to 91 of `main`: one cell per pair, in order, until a value's flag
      cannot be computed. */
  method BuildCells(details: seq<(String, String)>) returns (sd: seq<Cell>, failure: Option<Failure>)
    ensures failure.None? <==> FlagsRead(details)
    ensures failure.Some? ==> FirstBadFlag(details, failure.value)
    ensures failure.None? ==> FlagsRead(details) && |sd| == |details|
    ensures failure.None? ==> forall j :: 0 <= j < |sd| ==> sd[j] == CellOrPad(details, j)
  {
    sd := [];
    var k := 0;
    while k < |details|
      invariant 0 <= k <= |details| && |sd| == k
      invariant forall j :: 0 <= j < k ==> Flag(details[j].1).Ok?
      invariant forall j :: 0 <= j < k ==> sd[j] == FieldCell(details[j].0, details[j].1, Flag(details[j].1).value)
    {
      var flag := Flag(details[k].1);
      if flag.Err? {
        assert FirstBadFlag(details, flag.error);
        return sd, Some(flag.error);
      }
      sd := sd + [FieldCell(details[k].0, details[k].1, flag.value)];
      k := k + 1;
    }
    failure := None;
  }

  /** Lines 94 and 95: an even list of cells printed two to a line, so the branch for a
      last cell without a partner is never taken. */
  method PairUp(sd: seq<Cell>) returns (rows: seq<Line>)
    requires |sd| % 2 == 0
    ensures |rows| == |sd| / 2
    ensures forall j :: 0 <= j < |rows| ==> rows[j] == SpamPair(sd[2 * j], sd[2 * j + 1])
  {
    rows := [];
    var i := 0;
    while i < |sd|
      invariant 0 <= i <= |sd| && i % 2 == 0 && |rows| == i / 2
      invariant forall j :: 0 <= j < |rows| ==> rows[j] == SpamPair(sd[2 * j], sd[2 * j + 1])
    {
      if i + 1 == |sd| {
        assert false;
      } else {
        rows := rows + [SpamPair(sd[i], sd[i + 1])];
      }
      i := i + 2;
    }
  }

  /** Every cell is shown exactly once: cell `k` is on row `k / 2`, on the left when
      `k` is even and on the right when it is odd; an odd grid ends in the padding. */
  lemma GridHoldsEveryCell(rows: seq<Line>, details: seq<(String, String)>, k: nat)
    requires FlagsRead(details) && GridOf(rows, details) && k < |details|
    ensures k / 2 < |rows| && rows[k / 2].SpamPair?
    ensures k % 2 == 0 ==> rows[k / 2].left == CellOrPad(details, k)
    ensures k % 2 == 1 ==> rows[k / 2].right == CellOrPad(details, k)
    ensures |details| % 2 == 1 ==> rows[|rows| - 1].right == EmptyCell
  {
    var j := k / 2;
    assert k == 2 * j + k % 2;
    if |details| % 2 == 1 {
      var last := |rows| - 1;
      assert 2 * last + 1 == |details|;
    }
  }
}
