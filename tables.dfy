/**
 * Row assembly for the marksheet: the preview table shown in the page, the
 * table handed to the PDF library with its parallel list of row colours,
 * and the table style to which one BACKGROUND command per subject row is
 * added.
 */
module Tables {

  import opened Wrappers
  import opened PyDict
  import opened Curriculum
  import opened Grading
  import opened Decimal

  /** A table cell: the preview keeps marks as numbers, the PDF as text. */
  datatype Cell = Text(s: string) | Number(n: int)

  type Row = seq<Cell>

  const PreviewHeader: Row := [Text("Subject"), Text("Marks"), Text("Grade"), Text("Result")]

  const PdfHeader: Row := [Text("Subject"), Text("Marks"), Text("Grade"), Text("Pass / Fail")]

  /** The number of columns in both tables. */
  const Columns: nat := 4

  /** The preview row of one subject: name, mark, grade, verdict. */
  function PreviewRow(entry: (string, Mark)): Row
  {
    var evaluation := GradeCalc(entry.1);
    [Text(entry.0), Number(entry.1), Text(GradeLabel(evaluation.grade)), Text(VerdictLabel(evaluation.verdict))]
  }

  /** The PDF row of one subject: as the preview row, with the mark as a numeral. */
  function PdfRow(entry: (string, Mark)): Row
  {
    var evaluation := GradeCalc(entry.1);
    [Text(entry.0), Text(DecimalString(entry.1)), Text(GradeLabel(evaluation.grade)), Text(VerdictLabel(evaluation.verdict))]
  }

  /**
   * The preview: the header, then one row per subject, in the dict's order.
   */
  method BuildPreviewTable(marks: Entries<Mark>) returns (table: seq<Row>)
    ensures |table| == 1 + |marks|
    ensures table[0] == PreviewHeader
    ensures forall i :: 0 <= i < |marks| ==> table[i + 1] == PreviewRow(marks[i])
  {
    table := [PreviewHeader];
    var i := 0;
    while i < |marks|
      invariant 0 <= i <= |marks|
      invariant |table| == 1 + i
      invariant table[0] == PreviewHeader
      invariant forall j :: 0 <= j < i ==> table[j + 1] == PreviewRow(marks[j])
    {
      var (sub, mark) := marks[i];
      var evaluation := GradeCalc(mark);
      table := table + [[Text(sub), Number(mark), Text(GradeLabel(evaluation.grade)),
                         Text(VerdictLabel(evaluation.verdict))]];
      i := i + 1;
    }
  }

  /**
   * The PDF table and its row colours: the header, then one row per subject,
   * and beside them the classifier's colour of each subject, in the same order.
   */
  method BuildPdfTable(marks: Entries<Mark>) returns (table: seq<Row>, rowColours: seq<Colour>)
    ensures |table| == 1 + |marks| && |rowColours| == |marks|
    ensures table[0] == PdfHeader
    ensures forall i :: 0 <= i < |marks| ==> table[i + 1] == PdfRow(marks[i])
    ensures forall i :: 0 <= i < |marks| ==> rowColours[i] == GradeCalc(marks[i].1).colour
  {
    table, rowColours := [PdfHeader], [];
    var i := 0;
    while i < |marks|
      invariant 0 <= i <= |marks|
      invariant |table| == 1 + i && |rowColours| == i
      invariant table[0] == PdfHeader
      invariant forall j :: 0 <= j < i ==> table[j + 1] == PdfRow(marks[j])
      invariant forall j :: 0 <= j < i ==> rowColours[j] == GradeCalc(marks[j].1).colour
    {
      var (sub, mark) := marks[i];
      var evaluation := GradeCalc(mark);
      table := table + [[Text(sub), Text(DecimalString(mark)), Text(GradeLabel(evaluation.grade)),
                         Text(VerdictLabel(evaluation.verdict))]];
      rowColours := rowColours + [evaluation.colour];
      i := i + 1;
    }
  }

  /**
   * A subject's PDF row shows what its preview row shows: the same subject,
   * grade and verdict, and a numeral of digits that reads back as the mark.
   */
  lemma PdfRowMatchesPreview(entry: (string, Mark))
    ensures |PdfRow(entry)| == |PreviewRow(entry)| == Columns
    ensures PdfRow(entry)[0] == PreviewRow(entry)[0]
    ensures PdfRow(entry)[2] == PreviewRow(entry)[2] && PdfRow(entry)[3] == PreviewRow(entry)[3]
    ensures PreviewRow(entry)[1] == Number(entry.1)
    ensures PdfRow(entry)[1].Text? && DecimalValue(PdfRow(entry)[1].s) == entry.1
  {
    DecimalRoundTrip(entry.1);
  }

  /** A cell position; negative indices count from the end, as in the PDF library. */
  datatype Coord = Coord(col: int, row: int)

  /** The table-style commands the marksheet uses, each over a rectangle of cells. */
  datatype StyleCommand =
    | Background(from: Coord, to: Coord, colour: Colour)
    | TextColour(from: Coord, to: Coord, colour: Colour)
    | Align(from: Coord, to: Coord, how: string)
    | Grid(from: Coord, to: Coord, weight: nat, colour: Colour)
    | FontSize(from: Coord, to: Coord, size: nat)

  const HeaderColour: Colour := Hex("#003366")

  /** The style the table starts with: a dark header in white, centred text, a grid, 10-point type. */
  const BaseStyle: seq<StyleCommand> := [
    Background(Coord(0, 0), Coord(-1, 0), HeaderColour),
    TextColour(Coord(0, 0), Coord(-1, 0), White),
    Align(Coord(0, 0), Coord(-1, -1), "CENTER"),
    Grid(Coord(0, 0), Coord(-1, -1), 1, Black),
    FontSize(Coord(0, 0), Coord(-1, -1), 10)
  ]

  /** A table style whose command list grows with `Add`. */
  class TableStyle {
    var commands: seq<StyleCommand>

    constructor (initial: seq<StyleCommand>)
      ensures commands == initial
    {
      commands := initial;
    }

    /** `style.add(...)`: appends one command. */
    method Add(command: StyleCommand)
      modifies this
      ensures commands == old(commands) + [command]
    {
      commands := commands + [command];
    }
  }

  /** The commands that paint row i + 1, across every column, in `rowColours[i]`. */
  function RowBackgrounds(rowColours: seq<Colour>): seq<StyleCommand>
  {
    seq(|rowColours|, i requires 0 <= i < |rowColours| =>
      Background(Coord(0, i + 1), Coord(-1, i + 1), rowColours[i]))
  }

  /** Adds to the style, for each row colour in turn, a BACKGROUND command over its whole row (rows counted from 1). */
  method ApplyRowColours(style: TableStyle, rowColours: seq<Colour>)
    modifies style
    ensures style.commands == old(style.commands) + RowBackgrounds(rowColours)
  {
    var i := 0;
    while i < |rowColours|
      invariant 0 <= i <= |rowColours|
      invariant style.commands == old(style.commands) + RowBackgrounds(rowColours[..i])
    {
      assert RowBackgrounds(rowColours[..i + 1]) == RowBackgrounds(rowColours[..i]) +
        [Background(Coord(0, i + 1), Coord(-1, i + 1), rowColours[i])];
      style.Add(Background(Coord(0, i + 1), Coord(-1, i + 1), rowColours[i]));
      i := i + 1;
    }
    assert rowColours[..i] == rowColours;
  }

  /** A possibly negative index resolved against a dimension of the given size. */
  function Resolve(index: int, size: nat): int
  {
    if index < 0 then size + index else index
  }

  predicate Covers(from: Coord, to: Coord, rows: nat, cols: nat, col: int, row: int)
  {
    Resolve(from.col, cols) <= col <= Resolve(to.col, cols) &&
    Resolve(from.row, rows) <= row <= Resolve(to.row, rows)
  }

  /**
   * The background a cell ends up with: backgrounds are painted in command
   * order, so the last BACKGROUND command covering the cell decides; None
   * when no command covers it.
   */
  function CellBackground(commands: seq<StyleCommand>, rows: nat, cols: nat, col: int, row: int): Option<Colour>
  {
    if commands == [] then None
    else
      var last := commands[|commands| - 1];
      if last.Background? && Covers(last.from, last.to, rows, cols, col, row) then Some(last.colour)
      else CellBackground(commands[..|commands| - 1], rows, cols, col, row)
  }

  /** Row commands after the first m: none of them covers the rows 0..m. */
  lemma {:induction false} LaterRowsDoNotCover(base: seq<StyleCommand>, rowColours: seq<Colour>,
                                               m: nat, rows: nat, cols: nat, col: int, row: int)
    requires m <= |rowColours| && 0 <= row <= m
    ensures CellBackground(base + RowBackgrounds(rowColours), rows, cols, col, row) ==
            CellBackground(base + RowBackgrounds(rowColours[..m]), rows, cols, col, row)
    decreases |rowColours| - m
  {
    if m < |rowColours| {
      LaterRowsDoNotCover(base, rowColours, m + 1, rows, cols, col, row);
      var longer := base + RowBackgrounds(rowColours[..m + 1]);
      assert longer[..|longer| - 1] == base + RowBackgrounds(rowColours[..m]);
    } else {
      assert rowColours[..m] == rowColours;
    }
  }

  /**
   * Once the row colours are added, every cell of subject row i (1-based) has
   * the i-th row colour, whatever the base style held.
   */
  lemma SubjectRowBackground(base: seq<StyleCommand>, rowColours: seq<Colour>, col: int, row: int)
    requires 1 <= row <= |rowColours|
    requires 0 <= col < Columns
    ensures CellBackground(base + RowBackgrounds(rowColours), |rowColours| + 1, Columns, col, row) ==
            Some(rowColours[row - 1])
  {
    LaterRowsDoNotCover(base, rowColours, row, |rowColours| + 1, Columns, col, row);
    var upTo := base + RowBackgrounds(rowColours[..row]);
    assert upTo[|upTo| - 1] == Background(Coord(0, row), Coord(-1, row), rowColours[row - 1]);
  }

  /** The row colours leave the header row with the header colour of the base style. */
  lemma HeaderRowBackground(rowColours: seq<Colour>, col: int)
    requires 0 <= col < Columns
    ensures CellBackground(BaseStyle + RowBackgrounds(rowColours), |rowColours| + 1, Columns, col, 0) ==
            Some(HeaderColour)
  {
    LaterRowsDoNotCover(BaseStyle, rowColours, 0, |rowColours| + 1, Columns, col, 0);
    assert rowColours[..0] == [];
    assert RowBackgrounds([]) == [];
    assert BaseStyle + [] == BaseStyle;
    var rows := |rowColours| + 1;
    var s := BaseStyle;
    // the last four base commands are not backgrounds: peel them off one at a time
    assert CellBackground(s, rows, Columns, col, 0) == CellBackground(s[..4], rows, Columns, col, 0);
    assert CellBackground(s[..4], rows, Columns, col, 0) == CellBackground(s[..3], rows, Columns, col, 0) by {
      assert s[..4][..3] == s[..3];
    }
    assert CellBackground(s[..3], rows, Columns, col, 0) == CellBackground(s[..2], rows, Columns, col, 0) by {
      assert s[..3][..2] == s[..2];
    }
    assert CellBackground(s[..2], rows, Columns, col, 0) == CellBackground(s[..1], rows, Columns, col, 0) by {
      assert s[..2][..1] == s[..1];
    }
    assert s[..1] == [Background(Coord(0, 0), Coord(-1, 0), HeaderColour)];
  }
}
