/**
 * The table `display_jobs` prints: fixed-width, left-justified columns, each
 * followed by one space, with over-long values cut to fit.
 */
module Display {
  import opened Text
  import opened Records

  /** The keys of the `widths` dict of `display_jobs`, in its (insertion) order. */
  const Columns: seq<Field> := [Server, JobID, JobName, JobPath, CPUs, Status, Owner, Memory]

  /** The `widths` dict of `display_jobs`. */
  function Width(f: Field): (w: nat)
    ensures w >= 6
  {
    match f
    case Server => 20
    case JobID => 35
    case JobName => 30
    case JobPath => 50
    case CPUs => 6
    case Status => 8
    case Owner => 10
    case Memory => 10
  }

  /** The printed width of one line: every column plus its separating space. */
  const LineWidth: nat := 177

  /**
   * `value[:width-4] + "..." if len(value) > width - 1 else value`: a value
   * that fits in `width - 1` characters is kept, a longer one becomes its
   * first `width - 4` characters and an ellipsis.
   */
  function Truncate(value: string, width: nat): (r: string)
    requires width >= 4
    ensures |r| <= width - 1
    ensures |value| <= width - 1 ==> r == value
    ensures |value| > width - 1 ==>
      |r| == width - 1 && StartsWith(value, r[..width - 4]) && r[width - 4..] == "..."
  {
    if |value| > width - 1 then value[..width - 4] + "..." else value
  }

  /** `f"{value:<{width}}"`: left-justify by appending spaces. */
  function Pad(value: string, width: nat): (r: string)
    ensures |r| == if |value| < width then width else |value|
    ensures StartsWith(r, value)
    ensures forall i :: |value| <= i < |r| ==> r[i] == ' '
  {
    if |value| < width then value + Repeat(' ', width - |value|) else value
  }

  /** One printed cell: the cut value, padded to the column width, and a space. */
  function Cell(value: string, width: nat): (r: string)
    requires width >= 4
    ensures |r| == width + 1
    ensures StartsWith(r, Truncate(value, width))
    ensures forall i :: |Truncate(value, width)| <= i < |r| ==> r[i] == ' '
  {
    Pad(Truncate(value, width), width) + " "
  }

  function RowCells(job: JobRecord): (cells: seq<string>)
    ensures |cells| == |Columns|
    ensures forall c :: 0 <= c < |Columns| ==> cells[c] == Cell(Get(job, Columns[c]), Width(Columns[c]))
  {
    seq(|Columns|, c requires 0 <= c < |Columns| => Cell(Get(job, Columns[c]), Width(Columns[c])))
  }

  /** One line of the table, as the row loop of `display_jobs` builds it. */
  function Row(job: JobRecord): string {
    Concat(RowCells(job))
  }

  function HeaderCells(): (cells: seq<string>)
    ensures |cells| == |Columns|
  {
    seq(|Columns|, c requires 0 <= c < |Columns| => Pad(FieldName(Columns[c]), Width(Columns[c])) + " ")
  }

  function SeparatorCells(): (cells: seq<string>)
    ensures |cells| == |Columns|
  {
    seq(|Columns|, c requires 0 <= c < |Columns| => Repeat('-', Width(Columns[c])) + " ")
  }

  /** Where column `c` starts in a line. */
  function Offset(c: nat): nat
    requires c <= |Columns|
  {
    if c == 0 then 0 else Offset(c - 1) + Width(Columns[c - 1]) + 1
  }

  lemma {:induction false} ConcatExtends(parts: seq<string>, n: nat)
    requires n <= |parts|
    ensures StartsWith(Concat(parts), Concat(parts[..n]))
  {
    if n < |parts| {
      ConcatExtends(parts[..|parts| - 1], n);
      assert parts[..|parts| - 1][..n] == parts[..n];
    } else {
      assert parts[..n] == parts;
    }
  }

  /** Parts, one per column, each as wide as its column plus the separating space. */
  ghost predicate ColumnSized(parts: seq<string>) {
    |parts| == |Columns| && forall c :: 0 <= c < |parts| ==> |parts[c]| == Width(Columns[c]) + 1
  }

  /** The first `c` parts fill exactly the columns before column `c`. */
  lemma {:induction false} PrefixLength(parts: seq<string>, c: nat)
    requires ColumnSized(parts) && c <= |Columns|
    ensures |Concat(parts[..c])| == Offset(c)
  {
    if c > 0 {
      PrefixLength(parts, c - 1);
      ConcatPrefixSnoc(parts, c - 1);
    }
  }

  /** Joined column-sized parts make one line. */
  lemma ColumnsLineWidth(parts: seq<string>)
    requires ColumnSized(parts)
    ensures |Concat(parts)| == LineWidth
  {
    PrefixLength(parts, |Columns|);
    assert parts[..|Columns|] == parts;
    LineWidthIsTotal();
  }

  /** Part `c` of joined column-sized parts sits at the offset of column `c`. */
  lemma ColumnsLayout(parts: seq<string>, c: nat)
    requires ColumnSized(parts) && c < |Columns|
    ensures |Concat(parts)| == LineWidth
    ensures Offset(c) + Width(Columns[c]) + 1 <= LineWidth
    ensures Concat(parts)[Offset(c)..Offset(c) + Width(Columns[c]) + 1] == parts[c]
  {
    ColumnsLineWidth(parts);
    LineWidthIsTotal();
    OffsetGrows(c + 1, |Columns|);
    PrefixLength(parts, c);
    ConcatExtends(parts, c + 1);
    ConcatPrefixSnoc(parts, c);
    var upto := Concat(parts[..c + 1]);
    assert Concat(parts)[..|upto|] == upto;
    assert upto[Offset(c)..] == parts[c];
  }

  lemma RowCellsSized(job: JobRecord)
    ensures ColumnSized(RowCells(job))
  {
  }

  /**
   * Every row is exactly one line wide, and column `c` of it holds that
   * column's cell: the cut, padded value of the job's field.
   */
  lemma RowLayout(job: JobRecord, c: nat)
    requires c < |Columns|
    ensures |Row(job)| == LineWidth
    ensures Offset(c) + Width(Columns[c]) + 1 <= LineWidth
    ensures Row(job)[Offset(c)..Offset(c) + Width(Columns[c]) + 1] == Cell(Get(job, Columns[c]), Width(Columns[c]))
  {
    RowCellsSized(job);
    ColumnsLayout(RowCells(job), c);
  }

  lemma LineWidthIsTotal()
    ensures Offset(|Columns|) == LineWidth
  {
    assert Offset(1) == 21;
    assert Offset(2) == 57;
    assert Offset(3) == 88;
    assert Offset(4) == 139;
    assert Offset(5) == 146;
    assert Offset(6) == 155;
    assert Offset(7) == 166;
  }

  lemma {:induction false} OffsetGrows(c: nat, d: nat)
    requires c <= d <= |Columns|
    ensures Offset(c) <= Offset(d)
  {
    if c < d {
      OffsetGrows(c, d - 1);
    }
  }

  /** Trailing spaces after a value that does not end in whitespace are exactly what `rstrip` removes. */
  lemma {:induction false} StripRightPadding(value: string, n: nat)
    requires value == [] || !IsSpace(value[|value| - 1])
    ensures StripRight(value + Repeat(' ', n)) == value
  {
    if n > 0 {
      var s := value + Repeat(' ', n);
      assert s[..|s| - 1] == value + Repeat(' ', n - 1);
      StripRightPadding(value, n - 1);
    } else {
      assert value + Repeat(' ', 0) == value;
    }
  }

  /**
   * A value that fits its column and does not end in whitespace is read back
   * from its printed cell by stripping trailing spaces: short values are
   * shown in full.
   */
  lemma CellShowsFittingValue(value: string, width: nat)
    requires width >= 4 && |value| <= width - 1
    requires value == [] || !IsSpace(value[|value| - 1])
    ensures StripRight(Cell(value, width)) == value
  {
    var r := Cell(value, width);
    assert r == value + Repeat(' ', width + 1 - |value|);
    StripRightPadding(value, width + 1 - |value|);
  }

  /** The header and separator loop of `display_jobs`. */
  method RenderHeader() returns (header: string, separator: string)
    ensures header == Concat(HeaderCells())
    ensures separator == Concat(SeparatorCells())
  {
    header, separator := "", "";
    var c := 0;
    while c < |Columns|
      invariant c <= |Columns|
      invariant header == Concat(HeaderCells()[..c])
      invariant separator == Concat(SeparatorCells()[..c])
    {
      var field := Columns[c];
      var width := Width(field);
      var title, dashes := Pad(FieldName(field), width) + " ", Repeat('-', width) + " ";
      ConcatPrefixSnoc(HeaderCells(), c);
      ConcatPrefixSnoc(SeparatorCells(), c);
      header, separator := header + title, separator + dashes;
      c := c + 1;
    }
    assert HeaderCells()[..c] == HeaderCells();
    assert SeparatorCells()[..c] == SeparatorCells();
  }

  /** One cell of a row: the value cut to fit when it is too long, then padded and followed by a space. */
  method RenderCell(value: string, width: nat) returns (cell: string)
    requires width >= 4
    ensures cell == Cell(value, width)
  {
    var shown := value;
    if |shown| > width - 1 {
      shown := shown[..width - 4] + "...";
    }
    cell := Pad(shown, width) + " ";
  }

  /** The cell loop for one job in `display_jobs`. */
  method RenderRow(job: JobRecord) returns (row: string)
    ensures row == Row(job)
    ensures |row| == LineWidth
  {
    var cells := RowCells(job);
    row := "";
    var c := 0;
    while c < |Columns|
      invariant c <= |Columns|
      invariant row == Concat(cells[..c])
    {
      var field := Columns[c];
      var cell := RenderCell(Get(job, field), Width(field));
      assert cell == cells[c];
      ConcatPrefixSnoc(cells, c);
      row := row + cell;
      c := c + 1;
    }
    assert cells[..c] == cells;
    RowCellsSized(job);
    ColumnsLineWidth(cells);
  }
}
