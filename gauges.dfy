/**
 * The metric registry: the fourteen gauges the exporter declares, and the one
 * operation the exporter performs on a labeled gauge, `.labels(...).set(v)`,
 * which overwrites or inserts the entry for one label tuple and never removes
 * anything.  `FoldSets` replays a sequence of rows, each of which may set one
 * entry; every loop of the collection tick is an instance of it.
 */
module Gauges {
  import opened Wrappers

  /** The label values of one series, in the order the gauge declares its label names. */
  type Labels = seq<string>

  /** The series of one labeled gauge: the last value set for each label tuple. */
  type Series = map<Labels, real>

  datatype Descriptor = Descriptor(name: string, help: string, labelNames: seq<string>)

  const ActiveUserCounter := Descriptor("moodle_active_user_counter",
    "Counts active users of the last 5 minutes from Moodle database", [])
  const OnlineUserCounter := Descriptor("moodle_online_user_counter",
    "Counts online users of the last 5 minutes from Moodle database", [])
  const AllUserCounter := Descriptor("moodle_all_user_counter",
    "Counts all users from Moodle database", [])
  const DbSizeCounter := Descriptor("moodle_db_size_counter",
    "Returns the size of Moodle database in MB", [])
  const EnrolledPerCourse := Descriptor("moodle_enrolled_per_course",
    "Number of users enrolled per course", ["courseid", "coursename"])
  const AvgTimeOnSite := Descriptor("moodle_avg_time_on_site",
    "Average time spent on site by users", [])
  const FailedLogins := Descriptor("moodle_failed_logins",
    "Number of failed login attempts", [])
  const AssignmentsSubmitted := Descriptor("moodle_assignments_submitted",
    "Number of assignments submitted", [])
  const CourseCompletionRate := Descriptor("moodle_course_completion_rate",
    "Percentage of users who have completed the course", ["courseid", "coursename"])
  const QuizAttempts := Descriptor("moodle_quiz_attempts",
    "Number of attempts for each quiz", ["quizid"])
  const QuizSuccessRate := Descriptor("moodle_quiz_success_rate",
    "Success rate for each quiz", ["quizid"])
  const CertificationAchievements := Descriptor("moodle_certification_achievements",
    "Number of certifications achieved", ["certificationid", "certificationname"])
  const GradesDistribution := Descriptor("moodle_grades_distribution",
    "Average grade per course", ["courseid", "coursename"])
  const IssuedBadges := Descriptor("moodle_issued_badges",
    "Number of issued badges in Moodle", ["badge_name"])

  /** One `.labels(key).set(value)` call. */
  datatype Update = Update(key: Labels, value: real)

  /** `.labels(u.key).set(u.value)`: overwrite or insert one entry, keep all others. */
  function Set(m: Series, u: Update): (r: Series)
    ensures r.Keys == m.Keys + {u.key}
    ensures r[u.key] == u.value
    ensures forall k :: k in m && k != u.key ==> r[k] == m[k]
  {
    m[u.key := u.value]
  }

  /**
   * The series after walking `rows` in order, where `write(row)` is the set
   * call the loop body makes for that row, or None when its guard skips it.
   */
  function FoldSets<R>(m: Series, rows: seq<R>, write: R -> Option<Update>): Series
    decreases |rows|
  {
    if rows == [] then m
    else
      var before := FoldSets(m, rows[..|rows| - 1], write);
      match write(rows[|rows| - 1])
      case None => before
      case Some(u) => Set(before, u)
  }

  /** One more row: the walk of the first `i + 1` rows is the walk of the first `i` followed by row `i`'s set call. */
  lemma FoldStep<R>(m: Series, rows: seq<R>, write: R -> Option<Update>, i: nat)
    requires i < |rows|
    ensures FoldSets(m, rows[..i + 1], write) ==
      match write(rows[i])
      case None => FoldSets(m, rows[..i], write)
      case Some(u) => FoldSets(m, rows[..i], write)[u.key := u.value]
  {
    assert rows[..i + 1][..i] == rows[..i];
  }

  /** Some row of `rows` sets the entry `k`. */
  ghost predicate Writes<R>(rows: seq<R>, write: R -> Option<Update>, k: Labels) {
    exists i :: 0 <= i < |rows| && write(rows[i]).Some? && write(rows[i]).value.key == k
  }

  /** An entry is present afterwards exactly when it was present before or some row set it. */
  lemma {:induction false} FoldDomain<R>(m: Series, rows: seq<R>, write: R -> Option<Update>, k: Labels)
    ensures k in FoldSets(m, rows, write) <==> k in m || Writes(rows, write, k)
    decreases |rows|
  {
    if rows != [] {
      var init := rows[..|rows| - 1];
      FoldDomain(m, init, write, k);
      if Writes(rows, write, k) && !Writes(init, write, k) {
        var i :| 0 <= i < |rows| && write(rows[i]).Some? && write(rows[i]).value.key == k;
        assert i == |rows| - 1;
      }
      if Writes(init, write, k) {
        var i :| 0 <= i < |init| && write(init[i]).Some? && write(init[i]).value.key == k;
        assert rows[i] == init[i];
      }
    }
  }

  /** An entry that no row sets keeps its presence and its value. */
  lemma {:induction false} FoldUntouched<R>(m: Series, rows: seq<R>, write: R -> Option<Update>, k: Labels)
    requires !Writes(rows, write, k)
    ensures k in FoldSets(m, rows, write) <==> k in m
    ensures k in m ==> FoldSets(m, rows, write)[k] == m[k]
    decreases |rows|
  {
    if rows != [] {
      var init := rows[..|rows| - 1];
      forall i | 0 <= i < |init|
        ensures !(write(init[i]).Some? && write(init[i]).value.key == k)
      {
        assert init[i] == rows[i];
      }
      assert !(write(rows[|rows| - 1]).Some? && write(rows[|rows| - 1]).value.key == k);
      FoldUntouched(m, init, write, k);
    }
  }

  /** The last row that sets an entry determines its value. */
  lemma {:induction false} FoldLastWins<R>(m: Series, rows: seq<R>, write: R -> Option<Update>, i: nat, u: Update)
    requires i < |rows| && write(rows[i]) == Some(u)
    requires forall j :: i < j < |rows| ==> write(rows[j]).None? || write(rows[j]).value.key != u.key
    ensures u.key in FoldSets(m, rows, write)
    ensures FoldSets(m, rows, write)[u.key] == u.value
    decreases |rows|
  {
    var init := rows[..|rows| - 1];
    if i < |rows| - 1 {
      forall j | i < j < |init|
        ensures write(init[j]).None? || write(init[j]).value.key != u.key
      {
        assert init[j] == rows[j];
      }
      FoldLastWins(m, init, write, i, u);
    }
  }

  /** Walking the rows is the same as overriding the old series with what the rows alone set. */
  lemma {:induction false} FoldOverride<R>(m: Series, rows: seq<R>, write: R -> Option<Update>)
    ensures FoldSets(m, rows, write) == m + FoldSets(map[], rows, write)
    decreases |rows|
  {
    if rows != [] {
      FoldOverride(m, rows[..|rows| - 1], write);
    }
  }

  /** Walking the same rows twice gives what walking them once gives. */
  lemma FoldIdempotent<R>(m: Series, rows: seq<R>, write: R -> Option<Update>)
    ensures FoldSets(FoldSets(m, rows, write), rows, write) == FoldSets(m, rows, write)
  {
    var w := FoldSets(map[], rows, write);
    FoldOverride(m, rows, write);
    FoldOverride(m + w, rows, write);
    assert (m + w) + w == m + w;
  }

  /** A property of entries that holds before and of every set call holds afterwards. */
  lemma {:induction false} FoldPreserves<R>(m: Series, rows: seq<R>, write: R -> Option<Update>, P: (Labels, real) -> bool)
    requires forall k :: k in m ==> P(k, m[k])
    requires forall i :: 0 <= i < |rows| && write(rows[i]).Some? ==> P(write(rows[i]).value.key, write(rows[i]).value.value)
    ensures forall k :: k in FoldSets(m, rows, write) ==> P(k, FoldSets(m, rows, write)[k])
    decreases |rows|
  {
    if rows != [] {
      var init := rows[..|rows| - 1];
      forall i | 0 <= i < |init| && write(init[i]).Some?
        ensures P(write(init[i]).value.key, write(init[i]).value.value)
      {
        assert init[i] == rows[i];
      }
      FoldPreserves(m, init, write, P);
    }
  }
}
