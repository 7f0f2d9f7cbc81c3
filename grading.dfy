/**
 * The grade classifier of the marksheet generator: a descending ladder of
 * lower bounds (90, 75, 60, 50) that maps a mark to a letter grade, a
 * Pass/Fail verdict and the background colour of the mark's table row.
 */
module Grading {

  /** Letter grades, from best to worst. */
  datatype Grade = APlus | A | B | C | D

  datatype Verdict = Pass | Fail

  /** A table colour; `Hex` carries the "#RRGGBB" code given to the PDF library. */
  datatype Colour = Hex(code: string) | White | Black

  /** What the classifier returns for one mark. */
  datatype Evaluation = Evaluation(grade: Grade, verdict: Verdict, colour: Colour)

  /** Ordinal rank of a grade: D < C < B < A < A+. */
  function Rank(g: Grade): nat
  {
    match g
    case D => 0
    case C => 1
    case B => 2
    case A => 3
    case APlus => 4
  }

  /** The text printed for a grade. */
  function GradeLabel(g: Grade): string
  {
    match g
    case APlus => "A+"
    case A => "A"
    case B => "B"
    case C => "C"
    case D => "D"
  }

  /** The text printed for a verdict. */
  function VerdictLabel(v: Verdict): string
  {
    match v
    case Pass => "Pass"
    case Fail => "Fail"
  }

  /** The inclusive lower bound of every grade except the catch-all D. */
  function MinMark(g: Grade): int
    requires g != D
  {
    match g
    case APlus => 90
    case A => 75
    case B => 60
    case C => 50
  }

  /** The lowest passing mark. */
  const PassMark: int := 50

  /** The row colour paired with each grade. */
  function GradeColour(g: Grade): Colour
  {
    match g
    case APlus => Hex("#66FF66")
    case A => Hex("#99FF99")
    case B => Hex("#FFFF99")
    case C => Hex("#FFCC99")
    case D => Hex("#FF6666")
  }

  /**
   * The classifier. Its grade is the best one whose lower bound the mark
   * reaches (D when it reaches none); the verdict is Pass exactly from 50 up,
   * which is exactly when the grade is not D; the colour follows the grade.
   */
  function GradeCalc(mark: int): (r: Evaluation)
    ensures r.grade != D ==> MinMark(r.grade) <= mark
    ensures forall g: Grade :: g != D && Rank(g) > Rank(r.grade) ==> mark < MinMark(g)
    ensures r.verdict == Pass <==> mark >= PassMark
    ensures r.grade == D <==> r.verdict == Fail
    ensures r.colour == GradeColour(r.grade)
  {
    if mark >= 90 then Evaluation(APlus, Pass, Hex("#66FF66"))
    else if mark >= 75 then Evaluation(A, Pass, Hex("#99FF99"))
    else if mark >= 60 then Evaluation(B, Pass, Hex("#FFFF99"))
    else if mark >= 50 then Evaluation(C, Pass, Hex("#FFCC99"))
    else Evaluation(D, Fail, Hex("#FF6666"))
  }

  /**
   * An independent reference reading of the classifier: the ladder of
   * (lower bound, grade) pairs, most demanding first, scanned for the first
   * bound the mark reaches.
   */
  const Ladder: seq<(int, Grade)> := [(90, APlus), (75, A), (60, B), (50, C)]

  function FirstReached(ladder: seq<(int, Grade)>, mark: int): Grade
  {
    if ladder == [] then D
    else if mark >= ladder[0].0 then ladder[0].1
    else FirstReached(ladder[1..], mark)
  }

  /** The classifier agrees with the ladder scan on every mark. */
  lemma GradeCalcFollowsLadder(mark: int)
    ensures GradeCalc(mark).grade == FirstReached(Ladder, mark)
  {
    var rest := [(50, C)];
    assert FirstReached(rest, mark) == if mark >= 50 then C else D by {
      assert rest[1..] == [];
    }
    rest := [(60, B)] + rest;
    assert FirstReached(rest, mark) == if mark >= 60 then B else if mark >= 50 then C else D by {
      assert rest[1..] == [(50, C)];
    }
    rest := [(75, A)] + rest;
    assert rest[1..] == [(60, B), (50, C)];
    assert Ladder[1..] == rest;
  }

  /**
   * The two bound conditions in GradeCalc's contract pin the grade down:
   * any grade satisfying both for a mark is the classifier's grade.
   */
  lemma GradeDeterminedByBounds(mark: int, g: Grade)
    requires g != D ==> MinMark(g) <= mark
    requires forall h: Grade :: h != D && Rank(h) > Rank(g) ==> mark < MinMark(h)
    ensures g == GradeCalc(mark).grade
  {
  }

  /** A higher mark never earns a lower grade. */
  lemma GradeMonotonic(m1: int, m2: int)
    requires m1 <= m2
    ensures Rank(GradeCalc(m1).grade) <= Rank(GradeCalc(m2).grade)
  {
  }
}
