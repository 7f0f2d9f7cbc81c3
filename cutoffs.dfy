/**
 * The admission cutoffs printed under the totals, for school students only:
 * Engineering (Biology and Computer Science groups) reads Maths, Physics and
 * Chemistry with a default of 0 for a missing subject; Medical (Biology
 * group) reads Biology, Physics and Chemistry by direct indexing, which
 * raises KeyError on a missing subject.
 */
module Cutoffs {

  import opened Wrappers
  import opened PyDict
  import opened Curriculum

  /** What a cutoff line shows: nothing, a score, or the KeyError that stops the report. */
  datatype Cutoff = NotShown | Shown(score: real) | KeyError(key: string)

  predicate HasEngineeringCutoff(t: StudentType)
  {
    t.SchoolStudent? && t.group in {Biology, ComputerScience}
  }

  predicate HasMedicalCutoff(t: StudentType)
  {
    t.SchoolStudent? && t.group == Biology
  }

  /**
   * Engineering = Maths + (Physics + Chemistry) / 2, each subject read with a
   * default of 0. Shown exactly for the two groups, never an error, and
   * between 0 and 200.
   */
  function EngineeringCutoff(t: StudentType, marks: Entries<Mark>): (c: Cutoff)
    ensures c.Shown? <==> HasEngineeringCutoff(t)
    ensures !c.KeyError?
    ensures c.Shown? ==> 0.0 <= c.score <= 200.0
  {
    if HasEngineeringCutoff(t) then
      Shown(Get(marks, "Maths", 0) as real +
            (Get(marks, "Physics", 0) as real + Get(marks, "Chemistry", 0) as real) / 2.0)
    else NotShown
  }

  /**
   * Medical = Biology + (Physics + Chemistry) / 2, each read by indexing in
   * that order; the first missing subject is the KeyError. Shown exactly for
   * the Biology group when all three are present, and then between 0 and 200.
   */
  function MedicalCutoff(t: StudentType, marks: Entries<Mark>): (c: Cutoff)
    ensures !HasMedicalCutoff(t) <==> c.NotShown?
    ensures c.KeyError? ==> c.key in ["Biology", "Physics", "Chemistry"] && c.key !in Keys(marks)
    ensures c.KeyError? && c.key != "Biology" ==> "Biology" in Keys(marks)
    ensures c.KeyError? && c.key == "Chemistry" ==> "Physics" in Keys(marks)
    ensures c.Shown? <==>
      HasMedicalCutoff(t) && "Biology" in Keys(marks) && "Physics" in Keys(marks) && "Chemistry" in Keys(marks)
    ensures c.Shown? ==> 0.0 <= c.score <= 200.0
  {
    LookupPresent(marks, "Biology");
    LookupPresent(marks, "Physics");
    LookupPresent(marks, "Chemistry");
    if !HasMedicalCutoff(t) then NotShown
    else
      match (Lookup(marks, "Biology"), Lookup(marks, "Physics"), Lookup(marks, "Chemistry"))
      case (None, _, _) => KeyError("Biology")
      case (Some(_), None, _) => KeyError("Physics")
      case (Some(_), Some(_), None) => KeyError("Chemistry")
      case (Some(biology), Some(physics), Some(chemistry)) =>
        Shown(biology as real + (physics as real + chemistry as real) / 2.0)
  }

  /**
   * For the marks the curriculum produces, the Engineering lookups all find
   * their subject, so the default of 0 never takes effect.
   */
  lemma EngineeringFromEntered(g: Group, entered: seq<Mark>)
    requires g in {Biology, ComputerScience}
    requires |entered| == 6
    ensures EngineeringCutoff(SchoolStudent(g), EnterMarks(SchoolStudent(g), entered)) ==
            Shown(entered[2] as real + (entered[3] as real + entered[4] as real) / 2.0)
  {
    var t := SchoolStudent(g);
    var marks := EnterMarks(t, entered);
    CurriculumMarks(t, entered);
    CutoffSubjectsPresent(g);
    LookupAt(marks, 2);
    LookupAt(marks, 3);
    LookupAt(marks, 4);
  }

  /**
   * For the marks the curriculum produces, the Medical cutoff never raises:
   * it is shown for the Biology group and reads the entered marks.
   */
  lemma MedicalFromEntered(entered: seq<Mark>)
    requires |entered| == 6
    ensures MedicalCutoff(SchoolStudent(Biology), EnterMarks(SchoolStudent(Biology), entered)) ==
            Shown(entered[5] as real + (entered[3] as real + entered[4] as real) / 2.0)
  {
    var t := SchoolStudent(Biology);
    var marks := EnterMarks(t, entered);
    CurriculumMarks(t, entered);
    CutoffSubjectsPresent(Biology);
    LookupAt(marks, 3);
    LookupAt(marks, 4);
    LookupAt(marks, 5);
  }

  /**
   * The zero default as written: for a dict without Maths the Engineering
   * cutoff is half the Physics and Chemistry sum rather than an error.
   */
  lemma EngineeringWithoutMaths(t: StudentType, marks: Entries<Mark>)
    requires HasEngineeringCutoff(t)
    requires "Maths" !in Keys(marks)
    ensures EngineeringCutoff(t, marks) ==
            Shown((Get(marks, "Physics", 0) as real + Get(marks, "Chemistry", 0) as real) / 2.0)
  {
  }

  /** The worked examples: Maths 80, Physics 70, Chemistry 60 give 145; Biology 75 with them gives 140. */
  lemma WorkedExamples(tamil: Mark, english: Mark)
    ensures EngineeringCutoff(SchoolStudent(Biology),
              EnterMarks(SchoolStudent(Biology), [tamil, english, 80, 70, 60, 75])) == Shown(145.0)
    ensures MedicalCutoff(SchoolStudent(Biology),
              EnterMarks(SchoolStudent(Biology), [tamil, english, 80, 70, 60, 75])) == Shown(140.0)
  {
    EngineeringFromEntered(Biology, [tamil, english, 80, 70, 60, 75]);
    MedicalFromEntered([tamil, english, 80, 70, 60, 75]);
  }
}
