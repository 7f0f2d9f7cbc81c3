/**
 * The curriculum tables and the construction of the `marks` dict: the
 * student type selects a group (school) or a department and semester
 * (college), that selection picks an ordered list of six subjects, and one
 * mark widget per subject, bounded to 0..100, fills the dict in list order.
 */
module Curriculum {

  import opened PyDict

  /** A mark as the bounded number widget can deliver it. */
  type Mark = m: int | 0 <= m <= 100

  datatype Group = Biology | ComputerScience | Commerce | History

  datatype Department = CSE | ECE | Biotechnology

  /** The semester selector offers SEM 1 to SEM 8. */
  type Semester = s: int | 1 <= s <= 8 witness 1

  datatype StudentType =
    | SchoolStudent(group: Group)
    | CollegeStudent(department: Department, semester: Semester)

  /** The school table: six subjects per group, in display order. */
  function SchoolSubjects(g: Group): (subjects: seq<string>)
    ensures |subjects| == 6 && Distinct(subjects)
    ensures subjects[0] == "Tamil" && subjects[1] == "English"
  {
    match g
    case Biology => ["Tamil", "English", "Maths", "Physics", "Chemistry", "Biology"]
    case ComputerScience => ["Tamil", "English", "Maths", "Physics", "Chemistry", "Computer Science"]
    case Commerce => ["Tamil", "English", "Accountancy", "Economics", "Commerce", "Maths"]
    case History => ["Tamil", "English", "History", "Civics", "Geography", "Economics"]
  }

  /** The college table: six subjects per department, in display order. */
  function CollegeSubjects(d: Department): (subjects: seq<string>)
    ensures |subjects| == 6 && Distinct(subjects)
  {
    match d
    case CSE => ["DS", "OS", "DBMS", "Python", "Java", "Networks"]
    case ECE => ["Signals", "Electronics", "Microprocessor", "Comm Systems", "Maths", "Physics"]
    case Biotechnology => ["Genetics", "Biochemistry", "Microbiology", "Cell Biology", "Chemistry", "Physics"]
  }

  /** The subject list the selection picks; the semester does not change it. */
  function Subjects(t: StudentType): (subjects: seq<string>)
    ensures |subjects| == 6 && Distinct(subjects)
  {
    match t
    case SchoolStudent(g) => SchoolSubjects(g)
    case CollegeStudent(d, _) => CollegeSubjects(d)
  }

  /** The semester selector has no effect on a college student's subjects. */
  lemma SemesterIgnored(d: Department, s1: Semester, s2: Semester)
    ensures Subjects(CollegeStudent(d, s1)) == Subjects(CollegeStudent(d, s2)) == CollegeSubjects(d)
  {
  }

  /**
   * The marks dict: a comprehension over the selected subjects, in list
   * order, where `entered[i]` is what the mark widget of the i-th subject holds.
   */
  function EnterMarks(t: StudentType, entered: seq<Mark>): Entries<Mark>
    requires |entered| == |Subjects(t)|
  {
    Comprehension(Subjects(t), entered)
  }

  /**
   * The dict holds the selected subjects, in curriculum order, each with the
   * mark entered for it: six entries, distinct keys.
   */
  lemma CurriculumMarks(t: StudentType, entered: seq<Mark>)
    requires |entered| == |Subjects(t)|
    ensures |EnterMarks(t, entered)| == 6
    ensures Keys(EnterMarks(t, entered)) == Subjects(t)
    ensures Values(EnterMarks(t, entered)) == entered
    ensures Distinct(Keys(EnterMarks(t, entered)))
  {
    ComprehensionZips(Subjects(t), entered);
  }

  /** The groups with a cutoff have every subject the cutoffs read. */
  lemma CutoffSubjectsPresent(g: Group)
    ensures g in {Biology, ComputerScience} ==>
      "Maths" in SchoolSubjects(g) && "Physics" in SchoolSubjects(g) && "Chemistry" in SchoolSubjects(g)
    ensures g == Biology ==> "Biology" in SchoolSubjects(g)
  {
  }
}
