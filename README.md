# Student grade analyzer and profile helper, in Dafny

This project models two small console programs and proves what they promise.

- **The student grade analyzer** (`lecture_3/main.py`). A `StudentGradeAnalyzer` object owns one mutable roster of students. Each student is a name and a list of grades. The object offers these operations:
  - a case-insensitive lookup by name;
  - adding a student, which rejects an empty name or a duplicate one;
  - entering grades for one student until `done` is typed, keeping only numbers in [0, 100];
  - the per-student averages and the cohort statistics of the report;
  - the search for the top performer or performers.
- **The profile helper** (`lecture_2/main.py`). It covers:
  - the classification of an age into four life stages;
  - the age computed from a birth year;
  - the hobby loop, which stops at `stop` and skips blank entries;
  - the hobby summary.

Files:

- `options.dfy` (module `Options`) defines `Option`, which stands for Python's `None`-or-value.
- `text.dfy` (module `Text`) defines ASCII versions of `str.lower` and `str.strip`, and proves what stripping yields.
- `grade_stats.dfy` (module `GradeStatistics`) holds the pure part of the analyzer:
  - `Average`, which models `calculate_average`;
  - the averages and valid-averages lists;
  - the cohort statistics;
  - `TopPerformers`, the specification of the top-performer search, with the lemmas relating it to the roster and to one more student.
- `grade_analyzer.dfy` (module `GradeAnalyzer`) holds the class `StudentGradeAnalyzer`. It has a `students: seq<Student>` field and one method per operation. Each method is proved against pure specification functions: the name tests of `Text` (`Strip`, `SameName`), the grade-entry specification of this module (`AcceptedGrades`, `DoneIndex`, `ValidNumbers`), and the statistics of `GradeStatistics`. The class invariant `Valid()` says three things:
  - every name is non-empty;
  - no two names are equal once lower-cased;
  - every stored grade lies in [0, 100].
- `profile.dfy` (module `Profile`) holds the life-stage classification, the age computation, the hobby loop (a method proved against a recursive specification) and the profile summary.

Console prompts become parameters and printed messages become returned outcome values:

- The grade-entry loop takes a sequence of `GradeInput` values. Each is either `Done` or `Entered(n)`, where `n` is what `float` made of the stripped, lower-cased line (`None` when `float` raises `ValueError`). `ReadGradeInput` states how a typed line is classified.
- The hobby loop takes the sequence of typed lines.
- Running out of input ends a loop as if the sentinel had been typed. In the analyzer this matches the source: the grades appended before the end of input stay appended.

Grades are exact `real`s, so every average is exact and the tie test `avg == top_avg` is exact equality.

## Model

| member | source | states |
|---|---|---|
| Text.StripIsTrimmedSlice | lecture_3/main.py:39 | `strip()` yields a contiguous slice of its input, with whitespace only before and after it and a non-space character at each end of a non-empty result |
| Text.Lower | lecture_3/main.py:18-20 | `.lower()` on ASCII: maps 'A'..'Z' to 'a'..'z' one character at a time and keeps the length |
| Text.Strip | lecture_3/main.py:39 | `.strip()`: drops the leading and the trailing whitespace; `StripIsTrimmedSlice` and `StripEmptyIffBlank` state what it yields |
| Text.StripEmptyIffBlank | lecture_3/main.py:40 | the stripped name is empty exactly when the typed name is empty or whitespace only |
| Text.LeadingSpacesAreBlank | lecture_3/main.py:39 | the characters `strip()` removes at the front are all whitespace |
| Text.TrailingSpacesAreBlank | lecture_3/main.py:39 | the characters `strip()` removes at the back are all whitespace |
| GradeStatistics.Maximum | lecture_3/main.py:129 | `max` of a non-empty list is an element of the list and no element exceeds it |
| GradeStatistics.Minimum | lecture_3/main.py:130 | `min` of a non-empty list is an element of the list and no element is below it |
| GradeStatistics.SumBetween | lecture_3/main.py:94 | the `sum` of n values that all lie in [lo, hi] lies in [n * lo, n * hi] |
| GradeStatistics.QuotientBetween | lecture_3/main.py:94 | dividing a total in [n * lo, n * hi] by a positive n gives a value in [lo, hi] |
| GradeStatistics.Sum | lecture_3/main.py:94 | Python's `sum`: a left-to-right running total from 0; bounded by `SumBetween` |
| GradeStatistics.MeanBetween | lecture_3/main.py:94 | sum / len of a non-empty list whose values all lie in [lo, hi] lies in [lo, hi] |
| GradeStatistics.Average | lecture_3/main.py:90-94 | `calculate_average` is `None` exactly for an empty list; otherwise it is the mean, which lies between the list's minimum and maximum |
| GradeStatistics.AverageInRange | lecture_3/main.py:90-94 | grades inside [0, 100] average to a value inside [0, 100] |
| GradeStatistics.Averages | lecture_3/main.py:101-103 | the averages list has one entry per student |
| GradeStatistics.SomesMembers | lecture_3/main.py:104-105 | a value is in the valid-averages list exactly when it is present as `Some` in the averages list |
| GradeStatistics.SomesEmpty | lecture_3/main.py:104-105 | the valid-averages list is empty exactly when every average is `None` |
| GradeStatistics.ValidAverages | lecture_3/main.py:99-105 | the valid-averages list: the present averages of the roster, in roster order; `ValidAverageOf` and `NoValidAveragesIffUngraded` state its contents |
| GradeStatistics.NoValidAveragesIffUngraded | lecture_3/main.py:96-107 | there are no valid averages exactly when no student has a grade |
| GradeStatistics.ValidAverageOf | lecture_3/main.py:96-107 | a value is a valid average exactly when it is the average of some student |
| GradeStatistics.OverallStatistics | lecture_3/main.py:127-133 | the statistics exist exactly when the valid averages are non-empty; highest and lowest are valid averages that bound all the others, and the overall mean of the means lies between them |
| GradeStatistics.ReportHasStatisticsIffGraded | lecture_3/main.py:127-133 | the report prints statistics exactly when at least one student has a grade |
| GradeStatistics.WithAverage | lecture_3/main.py:149-151 | the students kept for one average are at most the roster |
| GradeStatistics.WithAverageMembers | lecture_3/main.py:149-151 | a student is kept for average a exactly when it is on the roster and its average is a |
| GradeStatistics.Best | lecture_3/main.py:141-151 | the top average `find_top_performer` reports: the largest valid average, absent when nobody has grades; `BestIsMaximum` states that it is the maximum |
| GradeStatistics.TopPerformers | lecture_3/main.py:141-155 | the students `find_top_performer` reports: those whose average is the best one, in roster order; `TopPerformersExact` and `TopPerformersAppend` state its contents and how the loop builds it |
| GradeStatistics.BestIsMaximum | lecture_3/main.py:141-151 | the best average is absent exactly when no student has a grade; otherwise some student attains it and every graded student's average is at most it |
| GradeStatistics.TopPerformersExact | lecture_3/main.py:141-155 | a student is among the top performers exactly when it is on the roster, has grades and its average is the best; the list is empty exactly when no student has a grade |
| GradeStatistics.AveragesAppend | lecture_3/main.py:101-103 | one more student adds exactly its own average at the end of the averages list |
| GradeStatistics.BestAppend | lecture_3/main.py:144-151 | one more student leaves the best average alone when it has no grades, sets it when it is the first graded one, and otherwise makes it the larger of the two |
| GradeStatistics.WithAverageAboveBest | lecture_3/main.py:147-149 | no student has an average above the best average |
| GradeStatistics.TopPerformersAppend | lecture_3/main.py:144-151 | one more student: no grades leaves the top list as it was; a strictly greater (or first) average resets it to that student; an equal average appends the student; a smaller one leaves the list as it was |
| GradeAnalyzer.ReadGradeInput | lecture_3/main.py:80-82 | a typed line is the `done` sentinel exactly when its stripped, lower-cased text is `done`; otherwise it carries the parsed number unchanged |
| GradeAnalyzer.ValidateGrade | lecture_3/main.py:24-35 | a number is accepted exactly when it is present and lies in [0, 100], and it is returned unchanged |
| GradeAnalyzer.DoneIndex | lecture_3/main.py:79-83 | the position where grade entry stops is within the input |
| GradeAnalyzer.DoneIndexIsFirstDone | lecture_3/main.py:79-83 | entry stops at the first `done`: no earlier input is `done`, and the input at that position is `done` unless input ran out |
| GradeAnalyzer.GradeOf | lecture_3/main.py:85-87 | the grade one input contributes: nothing for `done` or a rejected number, the number itself when `_validate_grade` accepts it |
| GradeAnalyzer.AcceptedGrades | lecture_3/main.py:79-87 | the grades one run of the entry loop appends: the accepted numbers before the first `done`; `AcceptedGradesStep` ties it to the loop |
| GradeAnalyzer.ValidNumbers | lecture_3/main.py:85-87 | the accepted grades are no more than the inputs and all lie in [0, 100] |
| GradeAnalyzer.AcceptedGradesStep | lecture_3/main.py:79-87 | one step of the entry loop: at `done` the grades accepted so far are all of them; past any other input, that input's grade (if accepted) is added to them |
| GradeAnalyzer.AppendGradesKeepsValid | lecture_3/main.py:87 | appending grades in [0, 100] to one student keeps the roster invariant, because no name changes |
| GradeAnalyzer.StudentGradeAnalyzer.constructor | lecture_3/main.py:4-5 | a new analyzer has an empty roster, which satisfies the roster invariant |
| GradeAnalyzer.StudentGradeAnalyzer.GetStudentByName | lecture_3/main.py:16-22 | returns the first student whose lower-cased name equals the lower-cased query, or nothing when no student matches |
| GradeAnalyzer.StudentGradeAnalyzer.AddNewStudent | lecture_3/main.py:37-60 | an empty stripped name or a case-insensitive duplicate is rejected and the roster is unchanged; otherwise exactly one student with the stripped name and no grades is appended at the end; the roster invariant (unique names) is kept |
| GradeAnalyzer.StudentGradeAnalyzer.EnterGrades | lecture_3/main.py:79-88 | the grades appended are exactly the accepted numbers typed before the first `done`, in input order, and they go to the given student only |
| GradeAnalyzer.StudentGradeAnalyzer.AddGradesForStudent | lecture_3/main.py:62-88 | with no students, no name or an unknown name nothing changes; otherwise the accepted grades are appended, in input order, to the first matching student (no earlier student matches), no other student changes, and the roster invariant is kept |
| GradeAnalyzer.StudentGradeAnalyzer.GetStudentStatistics | lecture_3/main.py:96-107 | the averages line up with the roster, one per student; the valid averages are exactly the present averages, in order |
| GradeAnalyzer.StudentGradeAnalyzer.ShowReport | lecture_3/main.py:109-133 | no report for an empty roster; otherwise one line per student with its name and average, in roster order, and the cohort statistics of the valid averages |
| GradeAnalyzer.StudentGradeAnalyzer.FindTopPerformer | lecture_3/main.py:135-155 | nothing for an empty roster; "no graded students" exactly when no student has a grade; otherwise the best average and exactly the graded students with that average, in roster order |
| Profile.GenerateProfile | lecture_2/main.py:1-9 | Child exactly for ages 0..12, Teenager exactly for 13..19, Adult exactly for 20 and over, "Invalid age" exactly for negative ages |
| Profile.AgeFromBirthYear | lecture_2/main.py:16 | the age is 2025 minus the birth year |
| Profile.StageOfBirthYear | lecture_2/main.py:15-16 | with the age taken as 2025 - birth year, the stage is Child exactly for birth years 2013..2025, Teenager for 2006..2012, Adult up to 2005, and "Invalid age" after 2025 |
| Profile.IsStop | lecture_2/main.py:23 | the sentinel test: the entry lower-cased, without stripping, equals `stop` |
| Profile.Hobbies | lecture_2/main.py:21-26 | the hobbies the loop stores, read from the front: none at or after the first `stop`, blank entries skipped; `HobbiesBeforeStop` and `StoredHobby` state its contents |
| Profile.StopIndex | lecture_2/main.py:21-24 | the hobby loop stops at the first entry whose lower-cased text is `stop`, without stripping, or at the end of input |
| Profile.NonBlank | lecture_2/main.py:25-26 | keeping the non-blank entries yields no more entries than it was given |
| Profile.NonBlankMembers | lecture_2/main.py:25-26 | an entry is kept exactly when it was given and is not empty after strip |
| Profile.HobbiesBeforeStop | lecture_2/main.py:21-26 | the stored hobbies are exactly the non-blank entries before the first `stop`, in input order and unstripped |
| Profile.StoredHobby | lecture_2/main.py:21-26 | every stored hobby is one of the entries, is not blank, and is not a `stop` entry |
| Profile.CollectHobbies | lecture_2/main.py:21-26 | the loop stores exactly the hobbies its specification describes |
| Profile.SummarizeHobbies | lecture_2/main.py:43-47 | "no hobbies" is shown exactly when the list is empty; otherwise the count shown is the number of stored hobbies, listed in order |
| Profile.BuildProfile | lecture_2/main.py:11-49 | the profile holds the typed name, the age 2025 - birth year, that age's life stage, and exactly the non-blank entries before `stop`; the hobby section is empty exactly when that list is, and otherwise gives its count and lists those hobbies in order |

## Left out

- Console I/O: `input`, `print`, `display_menu`, the menu dispatch and the `run` loop with its catch-all exception handler (lecture_3/main.py:7-14, 164-199). The operations they call are modelled.
- String-to-number parsing: `float(grade_str)` and `int(birth_year_str)`. Numbers arrive already parsed, with `None` for input that `float` rejects. `float` turns "nan" and "inf" into numbers that fail the range check, so such inputs behave as `None` too.
- IEEE floating point: grades, averages and the tie test use exact reals.
- Display rounding (`:.1f`), the comma-joining of tied names and the single-student vs. tie wording. These are presentation only; the model returns the names and the value.
- Text.Lower and Text.Strip: only ASCII case mapping and ASCII whitespace, not Python's full Unicode `lower` and `strip`.
- GradeAnalyzer.StudentGradeAnalyzer.EnterGrades: Python finds the student dictionary and appends to its `grades` list through that reference. The model updates the roster at the found index instead, which has the same effect because no other reference to the student exists.
- End of input: where Python's `input` would raise `EOFError`, the model ends the loop. In the analyzer the exception reaches the `run` handler after the earlier grades are already appended, which the model matches. In the profile helper the program would stop instead.
- lecture_4 (SQLite scripts, a sqlite3 subprocess, CSV export) and lecture_5 (FastAPI routes, SQLAlchemy sessions, pydantic schemas) are not part of this model: they are I/O plumbing around logic that lives in external engines.
