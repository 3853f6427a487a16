/**
 * The student grade analyzer: an object that owns one mutable roster and
 * offers the menu's operations on it. Console prompts are replaced by
 * parameters (the typed name, the sequence of grade inputs) and the
 * printed messages by returned outcomes.
 */
module GradeAnalyzer {
  import opened Options
  import opened Text
  import opened GradeStatistics

  const DoneWord: string := "done"

  /**
   * One answer to the grade prompt, as the loop sees it once the typed
   * line has been stripped and lower-cased: the sentinel, or the result of
   * `float` on that text (`None` when it raises ValueError).
   */
  datatype GradeInput = Done | Entered(number: Option<real>)

  /**
   * Classifies a typed line: "done" in any case and with any surrounding
   * whitespace ends the loop; anything else is handed to `_validate_grade`
   * together with what `float` made of it.
   */
  function ReadGradeInput(typed: string, number: Option<real>): (input: GradeInput)
    ensures input == Done <==> Lower(Strip(typed)) == DoneWord
    ensures input.Entered? ==> input.number == number
  {
    if Lower(Strip(typed)) == DoneWord then Done else Entered(number)
  }

  /** `_validate_grade`: a parsed number is accepted, unchanged, exactly when it lies in [0, 100]. */
  function ValidateGrade(number: Option<real>): (r: Option<real>)
    ensures r.Some? <==> number.Some? && 0.0 <= number.value <= 100.0
    ensures r.Some? ==> r.value == number.value
  {
    match number
    case None => None
    case Some(g) => if 0.0 <= g <= 100.0 then Some(g) else None
  }

  /** The position of the first `Done`, or the length when input runs out first. */
  function DoneIndex(inputs: seq<GradeInput>): (k: nat)
    ensures k <= |inputs|
  {
    if inputs == [] || inputs[0] == Done then 0
    else 1 + DoneIndex(inputs[1..])
  }

  /** `DoneIndex` is the first `Done`: no input before it is one, and it is one unless input ran out. */
  lemma {:induction false} DoneIndexIsFirstDone(inputs: seq<GradeInput>)
    ensures forall j :: 0 <= j < DoneIndex(inputs) ==> inputs[j] != Done
    ensures DoneIndex(inputs) < |inputs| ==> inputs[DoneIndex(inputs)] == Done
  {
    if inputs != [] && inputs[0] != Done {
      var rest := inputs[1..];
      DoneIndexIsFirstDone(rest);
      forall j | 0 < j < DoneIndex(inputs)
        ensures inputs[j] != Done
      {
        assert inputs[j] == rest[j - 1];
      }
    }
  }

  /** The grade one input contributes when it is not `Done`: its number if accepted, nothing otherwise. */
  function GradeOf(input: GradeInput): seq<real> {
    if input.Done? then []
    else
      var g := ValidateGrade(input.number);
      if g.Some? then [g.value] else []
  }

  /** The numbers among `inputs` that `_validate_grade` accepts, in input order. */
  function ValidNumbers(inputs: seq<GradeInput>): (r: seq<real>)
    ensures |r| <= |inputs|
    ensures forall i :: 0 <= i < |r| ==> 0.0 <= r[i] <= 100.0
  {
    if inputs == [] then []
    else ValidNumbers(inputs[..|inputs| - 1]) + GradeOf(inputs[|inputs| - 1])
  }

  /**
   * The grades one run of the entry loop appends: the accepted numbers
   * typed before the first "done"; nothing after "done" is read.
   */
  function AcceptedGrades(inputs: seq<GradeInput>): seq<real> {
    ValidNumbers(inputs[..DoneIndex(inputs)])
  }

  /**
   * One step of the entry loop, seen from the specification: at `Done` the
   * grades accepted so far are all of them; past any other input its own
   * grade (if accepted) joins them.
   */
  lemma AcceptedGradesStep(inputs: seq<GradeInput>, i: nat)
    requires i < |inputs| && i <= DoneIndex(inputs)
    ensures inputs[i] == Done ==> AcceptedGrades(inputs) == ValidNumbers(inputs[..i])
    ensures inputs[i] != Done ==>
              i + 1 <= DoneIndex(inputs) &&
              ValidNumbers(inputs[..i + 1]) == ValidNumbers(inputs[..i]) + GradeOf(inputs[i])
  {
    DoneIndexIsFirstDone(inputs);
    assert inputs[..i + 1][..i] == inputs[..i];
  }

  /** No two roster names are equal once lower-cased. */
  predicate NamesUnique(students: seq<Student>) {
    forall i, j :: 0 <= i < j < |students| ==> !SameName(students[i].name, students[j].name)
  }

  /** Every stored grade passed `_validate_grade`. */
  predicate GradesInRange(students: seq<Student>) {
    forall i, k :: 0 <= i < |students| && 0 <= k < |students[i].grades| ==>
      0.0 <= students[i].grades[k] <= 100.0
  }

  /** What the analyzer keeps true of its roster: non-empty, case-insensitively unique names, valid grades. */
  predicate RosterValid(students: seq<Student>) {
    && (forall i :: 0 <= i < |students| ==> students[i].name != [])
    && NamesUnique(students)
    && GradesInRange(students)
  }

  /** Appending valid grades to one student keeps the roster valid: names do not change. */
  lemma AppendGradesKeepsValid(students: seq<Student>, k: nat, extra: seq<real>)
    requires RosterValid(students) && k < |students|
    requires forall i :: 0 <= i < |extra| ==> 0.0 <= extra[i] <= 100.0
    ensures RosterValid(students[k := Student(students[k].name, students[k].grades + extra)])
  {
    var updated := students[k := Student(students[k].name, students[k].grades + extra)];
    forall i, g | 0 <= i < |updated| && 0 <= g < |updated[i].grades|
      ensures 0.0 <= updated[i].grades[g] <= 100.0
    {
      if i == k && g >= |students[k].grades| {
        assert updated[i].grades[g] == extra[g - |students[k].grades|];
      }
    }
    assert forall i :: 0 <= i < |updated| ==> updated[i].name == students[i].name;
  }

  datatype AddOutcome = NameMissing | DuplicateName | StudentAdded

  datatype GradeEntryOutcome =
    | NoStudentsYet
    | NameNotGiven
    | StudentNotFound
    | GradesRecorded(index: nat, added: seq<real>)

  datatype ReportLine = ReportLine(name: string, average: Option<real>)

  /** What `show_report` prints, as a value. */
  datatype Report =
    | NoStudentsToReport
    | FullReport(lines: seq<ReportLine>, statistics: Option<CohortStatistics>)

  /** What `find_top_performer` prints, as a value. */
  datatype TopResult =
    | NoStudentsToRank
    | NoGradedStudents
    | TopStudents(students: seq<Student>, average: real)

  class StudentGradeAnalyzer {
    var students: seq<Student>

    ghost predicate Valid()
      reads this
    {
      RosterValid(students)
    }

    constructor ()
      ensures Valid() && students == []
    {
      students := [];
    }

    /** `_get_student_by_name`: the first student whose name matches case-insensitively. */
    method GetStudentByName(name: string) returns (index: Option<nat>)
      ensures index.Some? ==>
                index.value < |students| && SameName(students[index.value].name, name) &&
                forall j :: 0 <= j < index.value ==> !SameName(students[j].name, name)
      ensures index.None? ==> forall j :: 0 <= j < |students| ==> !SameName(students[j].name, name)
    {
      var nameLower := Lower(name);
      for i := 0 to |students|
        invariant forall j :: 0 <= j < i ==> !SameName(students[j].name, name)
      {
        if Lower(students[i].name) == nameLower {
          return Some(i);
        }
      }
      return None;
    }

    /**
     * `add_new_student`: an empty name (after strip) or one that matches an
     * existing name case-insensitively is rejected and nothing changes;
     * otherwise exactly one student with no grades is appended.
     */
    method AddNewStudent(nameInput: string) returns (outcome: AddOutcome)
      requires Valid()
      modifies this
      ensures Valid()
      ensures outcome == NameMissing <==> Strip(nameInput) == []
      ensures outcome == DuplicateName <==>
                Strip(nameInput) != [] &&
                exists i :: 0 <= i < |old(students)| && SameName(old(students)[i].name, Strip(nameInput))
      ensures outcome == StudentAdded ==> students == old(students) + [Student(Strip(nameInput), [])]
      ensures outcome != StudentAdded ==> students == old(students)
    {
      var name := Strip(nameInput);
      if name == [] {
        return NameMissing;
      }
      var existing := GetStudentByName(name);
      if existing.Some? {
        return DuplicateName;
      }
      students := students + [Student(name, [])];
      outcome := StudentAdded;
    }

    /**
     * The `while True` loop of `add_grades_for_student`: consumes inputs
     * until `Done` (or the end of input), appending each accepted grade to
     * student `k` in place; rejected inputs are skipped.
     */
    method EnterGrades(k: nat, inputs: seq<GradeInput>) returns (added: seq<real>)
      requires k < |students|
      modifies this
      ensures added == AcceptedGrades(inputs)
      ensures students == old(students)[k := old(students)[k].(grades := old(students)[k].grades + added)]
    {
      var student := students[k];
      ghost var roster := students;
      added := [];
      assert student.grades + added == student.grades;
      var i := 0;
      while i < |inputs|
        invariant 0 <= i <= |inputs|
        invariant i <= DoneIndex(inputs)
        invariant added == ValidNumbers(inputs[..i])
        invariant students == roster[k := student.(grades := student.grades + added)]
      {
        AcceptedGradesStep(inputs, i);
        match inputs[i]
        case Done =>
          assert added == AcceptedGrades(inputs);
          return;
        case Entered(number) =>
          var grade := ValidateGrade(number);
          if grade.Some? {
            var g := grade.value;
            assert students[k].grades + [g] == student.grades + (added + [g]);
            students := students[k := students[k].(grades := students[k].grades + [g])];
            added := added + [g];
          }
        i := i + 1;
      }
      assert inputs[..i] == inputs;
    }

    /**
     * `add_grades_for_student`: with no students, no name or an unknown
     * name nothing changes; otherwise every accepted grade is appended, in
     * input order, to the matched student, and no other student changes.
     */
    method AddGradesForStudent(nameInput: string, inputs: seq<GradeInput>) returns (outcome: GradeEntryOutcome)
      requires Valid()
      modifies this
      ensures Valid()
      ensures outcome == NoStudentsYet <==> old(students) == []
      ensures outcome == NameNotGiven <==> old(students) != [] && Strip(nameInput) == []
      ensures outcome == StudentNotFound <==>
                old(students) != [] && Strip(nameInput) != [] &&
                forall j :: 0 <= j < |old(students)| ==> !SameName(old(students)[j].name, Strip(nameInput))
      ensures outcome.GradesRecorded? ==>
                var k := outcome.index;
                && k < |old(students)|
                && SameName(old(students)[k].name, Strip(nameInput))
                && (forall j :: 0 <= j < k ==> !SameName(old(students)[j].name, Strip(nameInput)))
                && outcome.added == AcceptedGrades(inputs)
                && students == old(students)[k := Student(old(students)[k].name, old(students)[k].grades + outcome.added)]
      ensures !outcome.GradesRecorded? ==> students == old(students)
    {
      if students == [] {
        return NoStudentsYet;
      }
      var name := Strip(nameInput);
      if name == [] {
        return NameNotGiven;
      }
      var found := GetStudentByName(name);
      if found.None? {
        return StudentNotFound;
      }
      var k := found.value;
      ghost var roster := students;
      var added := EnterGrades(k, inputs);
      AppendGradesKeepsValid(roster, k, added);
      outcome := GradesRecorded(k, added);
    }

    /**
     * `_get_student_statistics`: one average per student, lined up with the
     * roster, and the present ones among them, in the same order.
     */
    method GetStudentStatistics() returns (averages: seq<Option<real>>, validAverages: seq<real>)
      ensures |averages| == |students|
      ensures forall i :: 0 <= i < |students| ==> averages[i] == Average(students[i].grades)
      ensures validAverages == Somes(averages) == ValidAverages(students)
    {
      averages, validAverages := [], [];
      for i := 0 to |students|
        invariant |averages| == i
        invariant forall j :: 0 <= j < i ==> averages[j] == Average(students[j].grades)
        invariant validAverages == Somes(averages)
      {
        var avg := Average(students[i].grades);
        assert (averages + [avg])[..i] == averages;
        averages := averages + [avg];
        if avg.Some? {
          validAverages := validAverages + [avg.value];
        }
      }
      assert averages == Averages(students);
    }

    /**
     * `show_report`: nothing for an empty roster; otherwise each student's
     * average in roster order, and the cohort statistics of the valid
     * averages when there are any.
     */
    method ShowReport() returns (report: Report)
      ensures report == NoStudentsToReport <==> students == []
      ensures report.FullReport? ==>
                |report.lines| == |students| &&
                forall i :: 0 <= i < |students| ==>
                  report.lines[i] == ReportLine(students[i].name, Average(students[i].grades))
      ensures report.FullReport? ==> report.statistics == OverallStatistics(ValidAverages(students))
    {
      if students == [] {
        return NoStudentsToReport;
      }
      var averages, validAverages := GetStudentStatistics();
      var roster := students;
      var lines := seq(|roster|, i requires 0 <= i < |roster| => ReportLine(roster[i].name, averages[i]));
      report := FullReport(lines, OverallStatistics(validAverages));
    }

    /**
     * `find_top_performer`: one pass with a running maximum that starts at
     * -1; a strictly greater average resets the list, an equal one extends
     * it. The result is exactly the graded students with the best average,
     * in roster order.
     */
    method FindTopPerformer() returns (result: TopResult)
      requires Valid()
      ensures result == NoStudentsToRank <==> students == []
      ensures result == NoGradedStudents <==>
                students != [] && forall i :: 0 <= i < |students| ==> students[i].grades == []
      ensures result.TopStudents? ==>
                Best(students) == Some(result.average) && result.students == TopPerformers(students)
    {
      if students == [] {
        return NoStudentsToRank;
      }
      var topStudents: seq<Student> := [];
      var topAvg: real := -1.0;
      for i := 0 to |students|
        invariant topAvg == (if Best(students[..i]).Some? then Best(students[..i]).value else -1.0)
        invariant topStudents == TopPerformers(students[..i])
      {
        var student := students[i];
        assert students[..i + 1] == students[..i] + [student];
        TopPerformersAppend(students[..i], student);
        BestAppend(students[..i], student);
        var avg := Average(student.grades);
        if avg.Some? {
          AverageInRange(student.grades);
          if avg.value > topAvg {
            topAvg := avg.value;
            topStudents := [student];
          } else if avg.value == topAvg {
            topStudents := topStudents + [student];
          }
        }
      }
      assert students[..|students|] == students;
      TopPerformersExact(students, students[0]);
      if topStudents == [] {
        return NoGradedStudents;
      }
      BestIsMaximum(students);
      result := TopStudents(topStudents, topAvg);
    }
  }
}
