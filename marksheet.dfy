/**
 * One press of the generate button: build the marks dict from the selected
 * curriculum and the entered marks, then the totals, the preview table, the
 * PDF table with its row colours, the table style, and the cutoffs.
 */
module Marksheet {

  import opened Wrappers
  import opened PyDict
  import opened Curriculum
  import opened Grading
  import opened Aggregates
  import opened Tables
  import opened Cutoffs

  datatype Marksheet = Marksheet(
    marks: Entries<Mark>,
    total: int,
    average: real,
    preview: seq<Row>,
    pdfTable: seq<Row>,
    rowColours: seq<Colour>,
    style: seq<StyleCommand>,
    engineering: Cutoff,
    medical: Cutoff)

  /** The number of rows of both tables: the header and one per subject. */
  const TableRows: nat := 7

  /**
   * Generates the marksheet for a selection and the six entered marks. The
   * dict holds the curriculum's subjects with the entered marks; the total
   * and average are those of the entered marks; both tables list the
   * subjects in curriculum order; every cell of a subject row has that
   * subject's grade colour and the header keeps its own; the cutoffs appear
   * for their groups only, read the entered marks and never raise.
   */
  method Generate(t: StudentType, entered: seq<Mark>) returns (sheet: Marksheet)
    requires |entered| == |Subjects(t)|
    ensures Keys(sheet.marks) == Subjects(t) && Values(sheet.marks) == entered
    ensures sheet.total == Sum(entered)
    ensures sheet.average == Sum(entered) as real / 6.0
    ensures 0.0 <= sheet.average <= 100.0
    ensures |sheet.preview| == TableRows && sheet.preview[0] == PreviewHeader
    ensures forall i :: 0 <= i < 6 ==> sheet.preview[i + 1] == PreviewRow(sheet.marks[i])
    ensures |sheet.pdfTable| == TableRows && sheet.pdfTable[0] == PdfHeader
    ensures forall i :: 0 <= i < 6 ==> sheet.pdfTable[i + 1] == PdfRow(sheet.marks[i])
    ensures |sheet.rowColours| == 6
    ensures forall i :: 0 <= i < 6 ==> sheet.rowColours[i] == GradeCalc(entered[i]).colour
    ensures |sheet.style| == |BaseStyle| + 6
    ensures sheet.style == BaseStyle + RowBackgrounds(sheet.rowColours)
    ensures forall row, col :: 1 <= row < TableRows && 0 <= col < Columns ==>
      CellBackground(sheet.style, TableRows, Columns, col, row) == Some(GradeColour(GradeCalc(entered[row - 1]).grade))
    ensures forall col :: 0 <= col < Columns ==>
      CellBackground(sheet.style, TableRows, Columns, col, 0) == Some(HeaderColour)
    ensures sheet.engineering ==
      if HasEngineeringCutoff(t) then Shown(entered[2] as real + (entered[3] as real + entered[4] as real) / 2.0)
      else NotShown
    ensures sheet.medical ==
      if HasMedicalCutoff(t) then Shown(entered[5] as real + (entered[3] as real + entered[4] as real) / 2.0)
      else NotShown
  {
    var marks := EnterMarks(t, entered);
    CurriculumMarks(t, entered);
    TotalOfEntered(t, entered);

    var total := Total(marks);
    var average := Average(marks).value;

    var preview := BuildPreviewTable(marks);
    var pdfTable, rowColours := BuildPdfTable(marks);

    var style := new TableStyle(BaseStyle);
    ApplyRowColours(style, rowColours);
    forall row, col | 1 <= row < TableRows && 0 <= col < Columns
      ensures CellBackground(style.commands, TableRows, Columns, col, row) == Some(rowColours[row - 1])
    {
      SubjectRowBackground(BaseStyle, rowColours, col, row);
    }
    forall col | 0 <= col < Columns
      ensures CellBackground(style.commands, TableRows, Columns, col, 0) == Some(HeaderColour)
    {
      HeaderRowBackground(rowColours, col);
    }

    var engineering := EngineeringCutoff(t, marks);
    var medical := MedicalCutoff(t, marks);
    if HasEngineeringCutoff(t) {
      EngineeringFromEntered(t.group, entered);
    }
    if HasMedicalCutoff(t) {
      MedicalFromEntered(entered);
    }

    sheet := Marksheet(marks, total, average, preview, pdfTable, rowColours, style.commands,
                       engineering, medical);
  }
}
