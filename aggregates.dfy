/**
 * The totals line of the marksheet: the total is the sum of the dict's
 * values and the average divides it by the number of entries, which fails
 * on an empty dict.
 */
module Aggregates {

  import opened Wrappers
  import opened PyDict
  import opened Curriculum

  /** The sum of a sequence of marks: between 0 and 100 per mark. */
  function Sum(ms: seq<Mark>): (s: int)
    ensures 0 <= s <= 100 * |ms|
  {
    if ms == [] then 0 else Sum(ms[..|ms| - 1]) + ms[|ms| - 1]
  }

  /** The total: the sum of the marks' values. */
  function Total(marks: Entries<Mark>): (total: int)
    ensures 0 <= total <= 100 * |marks|
  {
    Sum(Values(marks))
  }

  /**
   * The total divided by the number of subjects, as an exact rational; None stands for the
   * ZeroDivisionError an empty dict raises. The average is what each mark
   * would be if all were equal, so it lies in 0..100.
   */
  function Average(marks: Entries<Mark>): (average: Option<real>)
    ensures average.Some? <==> |marks| > 0
    ensures average.Some? ==> average.value * (|marks| as real) == Total(marks) as real
    ensures average.Some? ==> 0.0 <= average.value <= 100.0
  {
    if |marks| == 0 then None
    else
      var total, count := Total(marks) as real, |marks| as real;
      MeanBounds(total, count);
      Some(total / count)
  }

  /** A total of `count` marks of at most 100 each averages to at most 100. */
  lemma MeanBounds(total: real, count: real)
    requires 0.0 < count
    requires 0.0 <= total <= 100.0 * count
    ensures (total / count) * count == total
    ensures 0.0 <= total / count <= 100.0
  {
  }

  /** The sum is additive over concatenation. */
  lemma {:induction false} SumAppend(xs: seq<Mark>, ys: seq<Mark>)
    ensures Sum(xs + ys) == Sum(xs) + Sum(ys)
  {
    if ys != [] {
      var n := |ys| - 1;
      assert (xs + ys)[..|xs + ys| - 1] == xs + ys[..n];
      SumAppend(xs, ys[..n]);
    } else {
      assert xs + ys == xs;
    }
  }

  /** Entering marks and summing them gives the sum of what was entered. */
  lemma TotalOfEntered(t: StudentType, entered: seq<Mark>)
    requires |entered| == |Subjects(t)|
    ensures Total(EnterMarks(t, entered)) == Sum(entered)
    ensures Average(EnterMarks(t, entered)) == Some(Sum(entered) as real / 6.0)
  {
    CurriculumMarks(t, entered);
  }
}
