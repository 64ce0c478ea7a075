/**
 * The process-wide gauges as one object, and the body of the exporter's
 * main loop: collect the query results, unpack them, and update the gauges
 * in place, scalar gauges first and then one loop per row-set group.
 */
module Exporter {
  import opened Wrappers
  import opened Gauges
  import opened Catalog
  import opened Rows
  import opened Cycle

  class Registry {
    var activeUsers: real
    var onlineUsers: real
    var allUsers: real
    var dbSize: real
    var avgTimeOnSite: real
    var failedLogins: real
    var assignmentsSubmitted: real
    var enrolledPerCourse: Series
    var courseCompletionRate: Series
    var quizAttempts: Series
    var quizSuccessRate: Series
    var certificationAchievements: Series
    var gradesDistribution: Series
    var issuedBadges: Series

    /** The value of every gauge. */
    function State(): GaugeState
      reads this
    {
      GaugeState(activeUsers, onlineUsers, allUsers, dbSize, avgTimeOnSite,
        failedLogins, assignmentsSubmitted, enrolledPerCourse, courseCompletionRate,
        quizAttempts, quizSuccessRate, certificationAchievements, gradesDistribution,
        issuedBadges)
    }

    /** Every series key has the arity its gauge declares. */
    ghost predicate Valid()
      reads this
    {
      WellShaped(State())
    }

    /** The gauges as declared at start-up: every number 0, no series. */
    constructor ()
      ensures Valid()
      ensures State() == Initial
    {
      activeUsers, onlineUsers, allUsers, dbSize := 0.0, 0.0, 0.0, 0.0;
      avgTimeOnSite, failedLogins, assignmentsSubmitted := 0.0, 0.0, 0.0;
      enrolledPerCourse, courseCompletionRate := map[], map[];
      quizAttempts, quizSuccessRate := map[], map[];
      certificationAchievements, gradesDistribution, issuedBadges := map[], map[], map[];
    }

    /** Updates every gauge from one tick's unpacked results, keeping every key at its gauge's arity. */
    method ApplyTick(t: TickInput)
      requires Valid()
      modifies this
      ensures Valid()
      ensures State() == Tick(old(State()), t)
    {
      UpdateGauges(t);
      TickWellShaped(old(State()), t);
    }

    /** The gauge-update body of the main loop: scalar gauges first, then one loop per row-set group. */
    method UpdateGauges(t: TickInput)
      modifies this
      ensures State() == Tick(old(State()), t)
    {
      SetScalars(t);
      SetSeries(t);
    }

    /** The six row-set loops, in the order the main loop runs them. */
    method SetSeries(t: TickInput)
      modifies this`enrolledPerCourse, this`courseCompletionRate, this`quizAttempts, this`quizSuccessRate,
        this`certificationAchievements, this`gradesDistribution, this`issuedBadges
      ensures enrolledPerCourse == FoldSets(old(enrolledPerCourse), t.enrolledPerCourse, EnrolledWrite)
      ensures courseCompletionRate == FoldSets(old(courseCompletionRate), t.courseCompletionRates, CompletionWrite)
      ensures quizAttempts == FoldSets(old(quizAttempts), t.quizAttemptsAndSuccess, QuizAttemptsWrite)
      ensures quizSuccessRate == FoldSets(old(quizSuccessRate), t.quizAttemptsAndSuccess, QuizSuccessWrite)
      ensures certificationAchievements ==
        FoldSets(old(certificationAchievements), t.certificationAchievements, CertificationWrite)
      ensures gradesDistribution == FoldSets(old(gradesDistribution), t.gradesDistribution, GradeWrite)
      ensures issuedBadges == FoldSets(old(issuedBadges), t.issuedBadges, BadgeWrite)
    {
      SetEnrolledPerCourse(t.enrolledPerCourse);
      SetCourseCompletionRates(t.courseCompletionRates);
      SetQuizAttemptsAndSuccess(t.quizAttemptsAndSuccess);
      SetCertificationAchievements(t.certificationAchievements);
      SetGradesDistribution(t.gradesDistribution);
      SetIssuedBadges(t.issuedBadges);
    }

    /** The seven unlabeled gauges are set unconditionally. */
    method SetScalars(t: TickInput)
      modifies this`activeUsers, this`onlineUsers, this`allUsers, this`dbSize,
        this`avgTimeOnSite, this`failedLogins, this`assignmentsSubmitted
      ensures activeUsers == t.activeUsers && onlineUsers == t.onlineUsers && allUsers == t.allUsers
      ensures dbSize == t.dbSize && avgTimeOnSite == t.avgTimeOnSite
      ensures failedLogins == t.failedLogins && assignmentsSubmitted == t.assignmentsSubmitted
    {
      activeUsers := t.activeUsers;
      onlineUsers := t.onlineUsers;
      allUsers := t.allUsers;
      dbSize := t.dbSize;
      avgTimeOnSite := t.avgTimeOnSite;
      failedLogins := t.failedLogins;
      assignmentsSubmitted := t.assignmentsSubmitted;
    }

    /** The enrolment loop: every row sets its course's count. */
    method SetEnrolledPerCourse(rows: seq<EnrolledRow>)
      modifies this`enrolledPerCourse
      ensures enrolledPerCourse == FoldSets(old(enrolledPerCourse), rows, EnrolledWrite)
    {
      for i := 0 to |rows|
        invariant enrolledPerCourse == FoldSets(old(enrolledPerCourse), rows[..i], EnrolledWrite)
      {
        var row := rows[i];
        FoldStep(old(enrolledPerCourse), rows, EnrolledWrite, i);
        enrolledPerCourse := enrolledPerCourse[IdNameKey(row.courseId, row.courseName) := row.enrolledUsers];
      }
      assert rows[..|rows|] == rows;
    }

    /** The completion loop: the rate is set only for rows with `total_enrolled > 0`. */
    method SetCourseCompletionRates(rows: seq<CompletionRow>)
      modifies this`courseCompletionRate
      ensures courseCompletionRate == FoldSets(old(courseCompletionRate), rows, CompletionWrite)
    {
      for i := 0 to |rows|
        invariant courseCompletionRate == FoldSets(old(courseCompletionRate), rows[..i], CompletionWrite)
      {
        var row := rows[i];
        FoldStep(old(courseCompletionRate), rows, CompletionWrite, i);
        if row.totalEnrolled > 0.0 {
          var rate := Rate(row.totalCompleted, row.totalEnrolled);
          courseCompletionRate := courseCompletionRate[IdNameKey(row.courseId, row.courseName) := rate];
        }
      }
      assert rows[..|rows|] == rows;
    }

    /** The quiz loop: attempts always, the success rate only for rows with `total_attempts > 0`. */
    method SetQuizAttemptsAndSuccess(rows: seq<QuizRow>)
      modifies this`quizAttempts, this`quizSuccessRate
      ensures quizAttempts == FoldSets(old(quizAttempts), rows, QuizAttemptsWrite)
      ensures quizSuccessRate == FoldSets(old(quizSuccessRate), rows, QuizSuccessWrite)
    {
      for i := 0 to |rows|
        invariant quizAttempts == FoldSets(old(quizAttempts), rows[..i], QuizAttemptsWrite)
        invariant quizSuccessRate == FoldSets(old(quizSuccessRate), rows[..i], QuizSuccessWrite)
      {
        var row := rows[i];
        FoldStep(old(quizAttempts), rows, QuizAttemptsWrite, i);
        FoldStep(old(quizSuccessRate), rows, QuizSuccessWrite, i);
        quizAttempts := quizAttempts[QuizKey(row.quizId) := row.totalAttempts];
        if row.totalAttempts > 0.0 {
          var rate := Rate(row.totalSuccess, row.totalAttempts);
          quizSuccessRate := quizSuccessRate[QuizKey(row.quizId) := rate];
        }
      }
      assert rows[..|rows|] == rows;
    }

    /** The certification loop: every row sets its certification's count. */
    method SetCertificationAchievements(rows: seq<CertificationRow>)
      modifies this`certificationAchievements
      ensures certificationAchievements == FoldSets(old(certificationAchievements), rows, CertificationWrite)
    {
      for i := 0 to |rows|
        invariant certificationAchievements == FoldSets(old(certificationAchievements), rows[..i], CertificationWrite)
      {
        var row := rows[i];
        FoldStep(old(certificationAchievements), rows, CertificationWrite, i);
        certificationAchievements :=
          certificationAchievements[IdNameKey(row.certificationId, row.certificationName) := row.totalIssued];
      }
      assert rows[..|rows|] == rows;
    }

    /** The grades loop: rows with a NULL average are skipped. */
    method SetGradesDistribution(rows: seq<GradeRow>)
      modifies this`gradesDistribution
      ensures gradesDistribution == FoldSets(old(gradesDistribution), rows, GradeWrite)
    {
      for i := 0 to |rows|
        invariant gradesDistribution == FoldSets(old(gradesDistribution), rows[..i], GradeWrite)
      {
        var row := rows[i];
        FoldStep(old(gradesDistribution), rows, GradeWrite, i);
        if row.averageGrade.Some? {
          gradesDistribution := gradesDistribution[IdNameKey(row.courseId, row.courseName) := row.averageGrade.value];
        }
      }
      assert rows[..|rows|] == rows;
    }

    /** The badge loop: every row sets its badge's count, keyed by the badge name alone. */
    method SetIssuedBadges(rows: seq<BadgeRow>)
      modifies this`issuedBadges
      ensures issuedBadges == FoldSets(old(issuedBadges), rows, BadgeWrite)
    {
      for i := 0 to |rows|
        invariant issuedBadges == FoldSets(old(issuedBadges), rows[..i], BadgeWrite)
      {
        var row := rows[i];
        FoldStep(old(issuedBadges), rows, BadgeWrite, i);
        issuedBadges := issuedBadges[[row.badgeName] := row.issuedCount];
      }
      assert rows[..|rows|] == rows;
    }

    /**
     * One pass of the main loop: run the catalog, unpack the results and
     * update the gauges.  A failure is the exception that would end the
     * exporter; the gauges are then left as they were.
     */
    method Step(fetched: seq<Answer>) returns (outcome: Result<TickInput, Error>)
      requires |fetched| == |Queries|
      requires Valid()
      modifies this
      ensures Valid()
      ensures outcome.Success? <==> AllAnswered(fetched) && Decode(Collected(fetched)).Success?
      ensures outcome.Success? ==> Decode(Collected(fetched)) == outcome
      ensures outcome.Success? ==> State() == Tick(old(State()), outcome.value)
      ensures outcome.Failure? ==> State() == old(State())
    {
      var metrics := GetMetrics(fetched);
      match metrics
      case Failure(e) =>
        return Failure(e);
      case Success(results) =>
        outcome := Decode(results);
        if outcome.Success? {
          ApplyTick(outcome.value);
        }
    }
  }
}
