/**
 * The pure part of the student grade analyzer: a student's average, the
 * per-student averages of a roster, the cohort statistics of the report,
 * and the specification of the top-performer search. Grades are exact
 * reals, so averages and the tie test are exact.
 */
module GradeStatistics {
  import opened Options

  /** One roster record: a name and the grades recorded so far, in entry order. */
  datatype Student = Student(name: string, grades: seq<real>)

  /** Python's `sum`: a left-to-right running total starting at 0. */
  function Sum(xs: seq<real>): real {
    if xs == [] then 0.0 else Sum(xs[..|xs| - 1]) + xs[|xs| - 1]
  }

  /** Python's `max` of a non-empty list. */
  function Maximum(xs: seq<real>): (m: real)
    requires xs != []
    ensures m in xs
    ensures forall i :: 0 <= i < |xs| ==> xs[i] <= m
  {
    if |xs| == 1 then xs[0]
    else
      var m := Maximum(xs[..|xs| - 1]);
      if xs[|xs| - 1] > m then xs[|xs| - 1] else m
  }

  /** Python's `min` of a non-empty list. */
  function Minimum(xs: seq<real>): (m: real)
    requires xs != []
    ensures m in xs
    ensures forall i :: 0 <= i < |xs| ==> m <= xs[i]
  {
    if |xs| == 1 then xs[0]
    else
      var m := Minimum(xs[..|xs| - 1]);
      if xs[|xs| - 1] < m then xs[|xs| - 1] else m
  }

  /** The total of n values each between `lo` and `hi` lies between n * lo and n * hi. */
  lemma {:induction false} SumBetween(xs: seq<real>, lo: real, hi: real)
    requires forall i :: 0 <= i < |xs| ==> lo <= xs[i] <= hi
    ensures |xs| as real * lo <= Sum(xs) <= |xs| as real * hi
  {
    if xs != [] {
      SumBetween(xs[..|xs| - 1], lo, hi);
    }
  }

  lemma QuotientBetween(total: real, n: real, lo: real, hi: real)
    requires n > 0.0 && n * lo <= total <= n * hi
    ensures lo <= total / n <= hi
  {
  }

  /** The mean of a non-empty list of values inside [lo, hi] lies inside [lo, hi]. */
  lemma MeanBetween(xs: seq<real>, lo: real, hi: real)
    requires xs != []
    requires forall i :: 0 <= i < |xs| ==> lo <= xs[i] <= hi
    ensures lo <= Sum(xs) / |xs| as real <= hi
  {
    SumBetween(xs, lo, hi);
    QuotientBetween(Sum(xs), |xs| as real, lo, hi);
  }

  /**
   * `calculate_average`: `None` for an empty list, otherwise sum / len,
   * which lies between the smallest and the largest grade.
   */
  function Average(grades: seq<real>): (r: Option<real>)
    ensures r.None? <==> grades == []
    ensures r.Some? ==> Minimum(grades) <= r.value <= Maximum(grades)
  {
    if grades == [] then None
    else
      MeanBetween(grades, Minimum(grades), Maximum(grades));
      Some(Sum(grades) / |grades| as real)
  }

  /** Grades inside [0, 100] average to a value inside [0, 100]. */
  lemma AverageInRange(grades: seq<real>)
    requires forall i :: 0 <= i < |grades| ==> 0.0 <= grades[i] <= 100.0
    ensures Average(grades).Some? ==> 0.0 <= Average(grades).value <= 100.0
  {
  }

  /** The first list `_get_student_statistics` builds: one entry per student, in roster order. */
  function Averages(roster: seq<Student>): (r: seq<Option<real>>)
    ensures |r| == |roster|
  {
    seq(|roster|, i requires 0 <= i < |roster| => Average(roster[i].grades))
  }

  /** The present values of a list of optional values, in order. */
  function Somes(xs: seq<Option<real>>): seq<real> {
    if xs == [] then []
    else
      var last := xs[|xs| - 1];
      Somes(xs[..|xs| - 1]) + if last.Some? then [last.value] else []
  }

  /** A value is kept exactly when it was present in the input. */
  lemma {:induction false} SomesMembers(xs: seq<Option<real>>, v: real)
    ensures v in Somes(xs) <==> Some(v) in xs
  {
    if xs != [] {
      SomesMembers(xs[..|xs| - 1], v);
      assert xs == xs[..|xs| - 1] + [xs[|xs| - 1]];
    }
  }

  /** Nothing is kept exactly when nothing is present. */
  lemma {:induction false} SomesEmpty(xs: seq<Option<real>>)
    ensures Somes(xs) == [] <==> forall i :: 0 <= i < |xs| ==> xs[i].None?
  {
    if xs != [] {
      var init := xs[..|xs| - 1];
      SomesEmpty(init);
      assert forall i :: 0 <= i < |init| ==> init[i] == xs[i];
    }
  }

  /** The second list `_get_student_statistics` builds: the averages of the graded students. */
  function ValidAverages(roster: seq<Student>): seq<real> {
    Somes(Averages(roster))
  }

  /** The valid averages are missing exactly when no student has a grade. */
  lemma NoValidAveragesIffUngraded(roster: seq<Student>)
    ensures ValidAverages(roster) == [] <==> forall i :: 0 <= i < |roster| ==> roster[i].grades == []
  {
    var xs := Averages(roster);
    SomesEmpty(xs);
    assert forall i :: 0 <= i < |roster| ==> (xs[i].None? <==> roster[i].grades == []);
  }

  /** A value is a valid average exactly when some student has it as average. */
  lemma ValidAverageOf(roster: seq<Student>, v: real)
    ensures v in ValidAverages(roster) <==> exists i :: 0 <= i < |roster| && Average(roster[i].grades) == Some(v)
  {
    var xs := Averages(roster);
    SomesMembers(xs, v);
    if Some(v) in xs {
      var i :| 0 <= i < |xs| && xs[i] == Some(v);
      assert Average(roster[i].grades) == Some(v);
    }
    if exists i :: 0 <= i < |roster| && Average(roster[i].grades) == Some(v) {
      var i :| 0 <= i < |roster| && Average(roster[i].grades) == Some(v);
      assert xs[i] == Some(v);
    }
  }

  /** The three numbers of "Overall Statistics". */
  datatype CohortStatistics = CohortStatistics(highest: real, lowest: real, overall: real)

  /**
   * The statistics of `show_report`: present only when some average is
   * valid; the highest and lowest are attained and bound every valid
   * average; the overall value is the plain mean of the averages (a
   * mean of means) and lies between them.
   */
  function OverallStatistics(valid: seq<real>): (r: Option<CohortStatistics>)
    ensures r.None? <==> valid == []
    ensures r.Some? ==> r.value.highest in valid && r.value.lowest in valid
    ensures r.Some? ==> forall i :: 0 <= i < |valid| ==> r.value.lowest <= valid[i] <= r.value.highest
    ensures r.Some? ==> r.value.lowest <= r.value.overall <= r.value.highest
  {
    if valid == [] then None
    else
      var mean := Average(valid).value;
      Some(CohortStatistics(Maximum(valid), Minimum(valid), mean))
  }

  /** The overall statistics exist exactly when at least one student has a grade. */
  lemma ReportHasStatisticsIffGraded(roster: seq<Student>)
    ensures OverallStatistics(ValidAverages(roster)).Some? <==> exists i :: 0 <= i < |roster| && roster[i].grades != []
  {
    NoValidAveragesIffUngraded(roster);
  }

  /** The highest average among graded students, `None` when nobody has a grade. */
  function Best(roster: seq<Student>): Option<real> {
    var valid := ValidAverages(roster);
    if valid == [] then None else Some(Maximum(valid))
  }

  /** The students of `roster` whose average is exactly `a`, in roster order. */
  function WithAverage(roster: seq<Student>, a: real): (r: seq<Student>)
    ensures |r| <= |roster|
  {
    if roster == [] then []
    else
      var last := roster[|roster| - 1];
      WithAverage(roster[..|roster| - 1], a) + if Average(last.grades) == Some(a) then [last] else []
  }

  /** The students `find_top_performer` reports: every student whose average is the best one. */
  function TopPerformers(roster: seq<Student>): seq<Student> {
    match Best(roster)
    case None => []
    case Some(m) => WithAverage(roster, m)
  }

  /** `Best` is the maximum over graded students: attained, and no graded student is above it. */
  lemma BestIsMaximum(roster: seq<Student>)
    ensures Best(roster).None? <==> forall i :: 0 <= i < |roster| ==> roster[i].grades == []
    ensures Best(roster).Some? ==>
              (exists i :: 0 <= i < |roster| && Average(roster[i].grades) == Best(roster))
    ensures Best(roster).Some? ==>
              forall i :: 0 <= i < |roster| && roster[i].grades != [] ==>
                Average(roster[i].grades).value <= Best(roster).value
  {
    NoValidAveragesIffUngraded(roster);
    if Best(roster).Some? {
      var m := Best(roster).value;
      ValidAverageOf(roster, m);
      forall i | 0 <= i < |roster| && roster[i].grades != []
        ensures Average(roster[i].grades).value <= m
      {
        ValidAverageOf(roster, Average(roster[i].grades).value);
      }
    }
  }

  /** A student is kept by the filter exactly when it is in the roster with that average. */
  lemma {:induction false} WithAverageMembers(roster: seq<Student>, a: real, s: Student)
    ensures s in WithAverage(roster, a) <==> s in roster && Average(s.grades) == Some(a)
  {
    if roster != [] {
      WithAverageMembers(roster[..|roster| - 1], a, s);
      assert roster == roster[..|roster| - 1] + [roster[|roster| - 1]];
    }
  }

  /**
   * The top performers are exactly the graded students whose average is
   * the maximum; students without grades never appear; the list is empty
   * exactly when nobody has a grade.
   */
  lemma TopPerformersExact(roster: seq<Student>, s: Student)
    ensures s in TopPerformers(roster) <==>
              s in roster && s.grades != [] && Average(s.grades) == Best(roster)
    ensures TopPerformers(roster) == [] <==> forall i :: 0 <= i < |roster| ==> roster[i].grades == []
  {
    BestIsMaximum(roster);
    if Best(roster).Some? {
      var m := Best(roster).value;
      WithAverageMembers(roster, m, s);
      var i :| 0 <= i < |roster| && Average(roster[i].grades) == Best(roster);
      WithAverageMembers(roster, m, roster[i]);
    }
  }

  lemma AveragesAppend(prefix: seq<Student>, s: Student)
    ensures Averages(prefix + [s]) == Averages(prefix) + [Average(s.grades)]
  {
  }

  /** How the best average changes when one more student is considered. */
  lemma BestAppend(prefix: seq<Student>, s: Student)
    ensures Average(s.grades).None? ==> Best(prefix + [s]) == Best(prefix)
    ensures Average(s.grades).Some? && Best(prefix).None? ==> Best(prefix + [s]) == Average(s.grades)
    ensures Average(s.grades).Some? && Best(prefix).Some? ==>
              Best(prefix + [s]).Some? &&
              Best(prefix + [s]).value ==
                (if Average(s.grades).value > Best(prefix).value then Average(s.grades).value else Best(prefix).value)
  {
    var xs := Averages(prefix + [s]);
    AveragesAppend(prefix, s);
    assert xs[..|xs| - 1] == Averages(prefix);
    var before := ValidAverages(prefix);
    match Average(s.grades)
    case None =>
      assert ValidAverages(prefix + [s]) == before;
    case Some(v) =>
      assert ValidAverages(prefix + [s]) == before + [v];
      if before != [] {
        assert (before + [v])[..|before|] == before;
      }
  }

  /** No student of `roster` has an average above its best one. */
  lemma WithAverageAboveBest(roster: seq<Student>, a: real)
    requires Best(roster).None? || Best(roster).value < a
    ensures WithAverage(roster, a) == []
  {
    BestIsMaximum(roster);
    if WithAverage(roster, a) != [] {
      var s := WithAverage(roster, a)[0];
      WithAverageMembers(roster, a, s);
    }
  }

  /**
   * One step of the single pass: a student without grades changes nothing;
   * a strictly greater average resets the list to that student; an equal
   * average appends the student; a smaller one changes nothing.
   */
  lemma TopPerformersAppend(prefix: seq<Student>, s: Student)
    ensures Average(s.grades).None? ==> TopPerformers(prefix + [s]) == TopPerformers(prefix)
    ensures Average(s.grades).Some? && (Best(prefix).None? || Average(s.grades).value > Best(prefix).value) ==>
              TopPerformers(prefix + [s]) == [s]
    ensures Average(s.grades).Some? && Best(prefix) == Average(s.grades) ==>
              TopPerformers(prefix + [s]) == TopPerformers(prefix) + [s]
    ensures Average(s.grades).Some? && Best(prefix).Some? && Average(s.grades).value < Best(prefix).value ==>
              TopPerformers(prefix + [s]) == TopPerformers(prefix)
  {
    var roster := prefix + [s];
    assert roster[..|roster| - 1] == prefix;
    BestAppend(prefix, s);
    match Average(s.grades)
    case None =>
    case Some(v) =>
      if Best(prefix).None? || v > Best(prefix).value {
        WithAverageAboveBest(prefix, v);
      }
  }

}
