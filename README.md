# Student marksheet: grades, totals, tables and cutoffs

A Dafny model of the computation inside the Student Marksheet Generator, a
single-page web form (`app.py`). The student type selects a curriculum: a
school group (Biology, Computer Science, Commerce, History) or a college
department (CSE, ECE, Biotechnology) with a semester. The curriculum gives six
subjects, and one bounded mark widget per subject (0 to 100) fills the `marks`
dict in curriculum order. Pressing the generate button then does the following:

- it computes the total and the average;
- it classifies every mark with `grade_calc` into a grade, a Pass/Fail verdict
  and a row colour, using the ladder 90 / 75 / 60 / 50;
- it builds the preview table, and the PDF table with a parallel list of row
  colours;
- it adds one BACKGROUND command per subject row to the PDF table style;
- for school students of the Biology and Computer Science groups it computes
  the Engineering cutoff, and for the Biology group the Medical cutoff.

Modules, one per part of that computation:

- `Grading` (grading.dfy): the classifier, grade ranks and labels, the
  grade-to-colour table and a reference ladder scan.
- `PyDict` (pydict.dfy): a Python dict as an insertion-ordered sequence of
  entries. It covers assignment, indexing, `get` with a default, keys, values
  and comprehension.
- `Curriculum` (curriculum.dfy): the school and college subject tables, the
  bounded `Mark` type and the construction of `marks`.
- `Aggregates` (aggregates.dfy): total and average. The average is `None`
  where Python raises ZeroDivisionError.
- `Decimal` (decimal.dfy): `str` on a non-negative integer, as the PDF table
  writes each mark.
- `Tables` (tables.dfy): the row assembly loops and the `TableStyle` class
  that `add` appends to. It also defines the background each cell ends up
  with.
- `Cutoffs` (cutoffs.dfy): the Engineering cutoff, with its zero defaults, and
  the Medical cutoff, with its KeyError on a missing subject.
- `Marksheet` (marksheet.dfy): one press of the generate button, end to end.

Both cutoffs are kept as the code writes them. Neither reports a missing
subject as an error of its own: the Engineering cutoff reads it as 0, and the
Medical cutoff stops with a KeyError from its direct indexing. The lemmas show that neither fallback is ever reached for the
marks the curriculum produces. The grade ladder and the pass mark (50) are the
fixed constants of `grade_calc`, not a configurable table.

The cell background is modelled in the PDF library's painting order:
BACKGROUND commands are painted in the order they were added, so the last one
that covers a cell decides its colour. Negative cell indices count from the
end.

## Model

| member | source | states |
|---|---|---|
| Grading.GradeCalc | app.py:92-102 | The grade is the best one whose lower bound (90, 75, 60, 50) the mark reaches, and D when it reaches none. The verdict is Pass if and only if the mark is at least 50, and the grade is D if and only if the verdict is Fail. The colour is the grade's colour |
| Grading.GradeCalcFollowsLadder | app.py:92-102 | The classifier's grade equals a first-match scan of the descending (bound, grade) ladder, for every integer mark |
| Grading.GradeDeterminedByBounds | app.py:92-102 | Any grade whose bound the mark reaches, while the mark misses every better grade's bound, is the classifier's grade, so exactly one grade fits |
| Grading.GradeMonotonic | app.py:92-102 | A higher mark never gets a lower-ranked grade (D < C < B < A < A+) |
| PyDict.PutKeys | app.py:75 | Assigning a key keeps the existing key order and appends the key only when it is new |
| PyDict.PutAbsent | app.py:75 | Assigning a key that is not present appends the entry at the end |
| PyDict.LookupPut | app.py:75 | After assigning k, indexing k gives the new value and every other key reads as before |
| PyDict.LookupPresent | app.py:197 | Indexing succeeds (no KeyError) exactly for the keys present |
| PyDict.ComprehensionZips | app.py:89 | A comprehension over distinct keys has one entry per key, in key order, each paired with its own value |
| PyDict.LookupAt | app.py:197 | In a dict with distinct keys, each entry's key indexes to that entry's value |
| Curriculum.SchoolSubjects | app.py:67-72 | Every school group lists 6 distinct subjects, beginning with Tamil and English |
| Curriculum.CollegeSubjects | app.py:82-86 | Every college department lists 6 distinct subjects |
| Curriculum.Subjects | app.py:64-88 | The selected curriculum always has 6 distinct subjects |
| Curriculum.SemesterIgnored | app.py:80-88 | The chosen semester does not change a college student's subjects: they are the department's list |
| Curriculum.CurriculumMarks | app.py:74-75 | The marks dict has exactly the curriculum's subjects as keys, in curriculum order, with the entered marks as values. It has 6 entries and distinct keys |
| Curriculum.CutoffSubjectsPresent | app.py:68-69 | The Biology and Computer Science groups include Maths, Physics and Chemistry, and the Biology group includes Biology |
| Aggregates.Sum | app.py:106 | The sum of n marks in 0..100 lies in 0..100n |
| Aggregates.Total | app.py:106 | The total of the dict's values lies between 0 and 100 times the number of subjects |
| Aggregates.Average | app.py:107 | The average exists if and only if the dict is non-empty. It times the subject count gives back the total, and it lies in 0..100 |
| Aggregates.MeanBounds | app.py:107 | Dividing a total of at most 100 per subject by the subject count gives a value in 0..100 that multiplies back to the total |
| Aggregates.SumAppend | app.py:106 | The sum of a concatenation is the sum of its parts |
| Aggregates.TotalOfEntered | app.py:106-107 | For the curriculum's marks, the total is the sum of the entered marks and the average is that sum divided by 6 |
| Decimal.DecimalString | app.py:166 | The numeral of n is a non-empty string of digits without a leading zero. It is a single digit if and only if n < 10 |
| Decimal.DecimalRoundTrip | app.py:166 | Reading the numeral of n back gives n |
| Decimal.DecimalInjective | app.py:166 | Different marks are written as different numerals |
| Tables.BuildPreviewTable | app.py:110-113 | The preview has 1 + n rows: the fixed header, then row i+1 is subject i's name, mark, grade label and verdict label, in dict order |
| Tables.BuildPdfTable | app.py:161-167 | The PDF table has 1 + n rows: its header, then row i+1 is subject i's name, mark numeral, grade and verdict. The row colours list has n entries, and entry i is the classifier's colour for mark i |
| Tables.PdfRowMatchesPreview | app.py:161-166 | A subject's PDF row and preview row have 4 cells and the same subject, grade and verdict, and the PDF mark text reads back as the preview's mark |
| Tables.TableStyle.constructor | app.py:170-176 | A new style holds exactly the initial commands |
| Tables.TableStyle.Add | app.py:179 | Adding appends exactly that command to the style |
| Tables.ApplyRowColours | app.py:178-179 | The style gains, in order, one BACKGROUND command for each row colour, spanning its whole row, with rows counted from 1 |
| Tables.LaterRowsDoNotCover | app.py:178-179 | The BACKGROUND commands for rows after m do not change the background of any cell in rows 0..m |
| Tables.SubjectRowBackground | app.py:178-179 | After the row colours are added, every cell of subject row i has the i-th row colour, whatever the base style held |
| Tables.HeaderRowBackground | app.py:170-179 | The row colours leave every header cell with the header colour #003366 |
| Cutoffs.EngineeringCutoff | app.py:193-194 | The Engineering cutoff is shown if and only if the student is a school student in the Biology or Computer Science group. It never raises and lies in 0..200 |
| Cutoffs.MedicalCutoff | app.py:196-197 | The Medical cutoff is absent if and only if the group is not Biology. It raises KeyError naming the first missing subject in the order Biology, Physics, Chemistry, and is shown if and only if all three are present. When shown it lies in 0..200 |
| Cutoffs.EngineeringFromEntered | app.py:192-194 | For curriculum marks the Engineering cutoff is the entered Maths + (Physics + Chemistry)/2, so the zero default never takes effect |
| Cutoffs.MedicalFromEntered | app.py:196-197 | For Biology-group curriculum marks the Medical cutoff is the entered Biology + (Physics + Chemistry)/2 and never raises |
| Cutoffs.EngineeringWithoutMaths | app.py:194 | On a dict without Maths, the Engineering cutoff as written is (Physics + Chemistry)/2 rather than an error |
| Cutoffs.WorkedExamples | app.py:192-198 | Maths 80, Physics 70, Chemistry 60 give an Engineering cutoff of 145, and with Biology 75 a Medical cutoff of 140 |
| Marksheet.Generate | app.py:105-198 | One press of the button, end to end. It covers the marks dict, the total and average of the entered marks, both tables row by row in curriculum order and the style commands. Every cell of subject row i gets the colour of grade i, and the header keeps its colour. The row colours are exactly six, entry i being the grade colour of mark i, so the style is the five base commands plus six row commands. The cutoffs appear only for their groups, as the formulas over the entered marks, and never raise |

## Left out

- Streamlit widgets, layout, CSS and messages (app.py:20-61, 115-116, 206-212) are user interface. The widgets appear only as their values: the selection and six marks bounded to 0..100.
- Student identity fields, date of birth, parents' contacts, the attendance widget (0..100) and the photo upload are pass-through inputs with no logic.
- PDF document construction (the document template, paragraphs, spacers, images and the final build) belongs to an external rendering library. The model keeps the table rows, the style commands and the background each cell ends up with.
- Column widths (app.py:169) are not modelled.
- The GRID, ALIGN, FONTSIZE and TEXTCOLOR commands are kept only as commands in the base style. Their rendering is not modelled.
- Temporary files, the photo write and reading the PDF bytes are file I/O.
- Email sending, base64 encoding and the API-key environment lookup are a network client and an environment read.
- The two-decimal formatting of the average and the text of the cutoff lines are presentation only.
- Aggregates.Average: computed as an exact rational, not a binary float. Python's `total / len(marks)` rounds, for example 401/6. The cutoffs are exact either way, since they are integers and halves within 0..200.
- Marksheet.Generate: takes the six entered marks as a parameter in curriculum order, where the source reads them from widgets labelled by subject name.
