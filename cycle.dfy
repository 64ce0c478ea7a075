/**
 * One collection tick as a function on gauge state: the seven scalar gauges
 * are overwritten, and each row-set group's rows are walked in order, each
 * row setting at most the entries its loop body names.  The lemmas are the
 * promises of the tick: conditional emission, entries no row names keep
 * their value, nothing is removed, label keys have the declared arity, the
 * tick is idempotent, and the two rates stay within [0, 100].
 */
module Cycle {
  import opened Wrappers
  import opened LabelText
  import opened Gauges
  import opened Rows

  /** The value of every gauge: a number for each unlabeled one, a series for each labeled one. */
  datatype GaugeState = GaugeState(
    activeUsers: real,
    onlineUsers: real,
    allUsers: real,
    dbSize: real,
    avgTimeOnSite: real,
    failedLogins: real,
    assignmentsSubmitted: real,
    enrolledPerCourse: Series,
    courseCompletionRate: Series,
    quizAttempts: Series,
    quizSuccessRate: Series,
    certificationAchievements: Series,
    gradesDistribution: Series,
    issuedBadges: Series)

  /** A freshly declared gauge reads 0 and a labeled gauge has no series yet. */
  const Initial := GaugeState(0.0, 0.0, 0.0, 0.0, 0.0, 0.0, 0.0,
    map[], map[], map[], map[], map[], map[], map[])

  /** Every key of a series has as many values as its gauge declares label names. */
  ghost predicate HasArity(m: Series, n: nat) {
    forall k :: k in m ==> |k| == n
  }

  /** Every series key has the arity its gauge declares (see `DeclaredArities`). */
  ghost predicate WellShaped(g: GaugeState) {
    && HasArity(g.enrolledPerCourse, 2)
    && HasArity(g.courseCompletionRate, 2)
    && HasArity(g.quizAttempts, 1)
    && HasArity(g.quizSuccessRate, 1)
    && HasArity(g.certificationAchievements, 2)
    && HasArity(g.gradesDistribution, 2)
    && HasArity(g.issuedBadges, 1)
  }

  /** The arities `WellShaped` checks are the numbers of label names the gauges are declared with. */
  lemma DeclaredArities()
    ensures |EnrolledPerCourse.labelNames| == 2 && |CourseCompletionRate.labelNames| == 2
    ensures |QuizAttempts.labelNames| == 1 && |QuizSuccessRate.labelNames| == 1
    ensures |CertificationAchievements.labelNames| == 2 && |GradesDistribution.labelNames| == 2
    ensures |IssuedBadges.labelNames| == 1
  {
  }

  /** The label tuple of a gauge labeled by an id and a name: `(str(id), name)`. */
  function IdNameKey(id: int, name: string): (k: Labels)
    ensures |k| == 2
  {
    [IntToString(id), name]
  }

  /** The label tuple of a gauge labeled by a quiz id alone: `(str(id),)`. */
  function QuizKey(id: int): (k: Labels)
    ensures |k| == 1
  {
    [IntToString(id)]
  }

  /** The percentage `part / whole * 100`, the one computation the tick performs. */
  function Rate(part: real, whole: real): real
    requires whole > 0.0
  {
    part / whole * 100.0
  }

  // The set calls each loop body makes for one row.

  function EnrolledWrite(r: EnrolledRow): Option<Update> {
    Some(Update(IdNameKey(r.courseId, r.courseName), r.enrolledUsers))
  }

  function CompletionWrite(r: CompletionRow): Option<Update> {
    if r.totalEnrolled > 0.0
    then Some(Update(IdNameKey(r.courseId, r.courseName), Rate(r.totalCompleted, r.totalEnrolled)))
    else None
  }

  function QuizAttemptsWrite(r: QuizRow): Option<Update> {
    Some(Update(QuizKey(r.quizId), r.totalAttempts))
  }

  function QuizSuccessWrite(r: QuizRow): Option<Update> {
    if r.totalAttempts > 0.0
    then Some(Update(QuizKey(r.quizId), Rate(r.totalSuccess, r.totalAttempts)))
    else None
  }

  function CertificationWrite(r: CertificationRow): Option<Update> {
    Some(Update(IdNameKey(r.certificationId, r.certificationName), r.totalIssued))
  }

  function GradeWrite(r: GradeRow): Option<Update> {
    if r.averageGrade.Some?
    then Some(Update(IdNameKey(r.courseId, r.courseName), r.averageGrade.value))
    else None
  }

  function BadgeWrite(r: BadgeRow): Option<Update> {
    Some(Update([r.badgeName], r.issuedCount))
  }

  /** The gauge state after one tick with the unpacked results `t`. */
  function Tick(g: GaugeState, t: TickInput): GaugeState {
    GaugeState(
      t.activeUsers, t.onlineUsers, t.allUsers, t.dbSize, t.avgTimeOnSite,
      t.failedLogins, t.assignmentsSubmitted,
      FoldSets(g.enrolledPerCourse, t.enrolledPerCourse, EnrolledWrite),
      FoldSets(g.courseCompletionRate, t.courseCompletionRates, CompletionWrite),
      FoldSets(g.quizAttempts, t.quizAttemptsAndSuccess, QuizAttemptsWrite),
      FoldSets(g.quizSuccessRate, t.quizAttemptsAndSuccess, QuizSuccessWrite),
      FoldSets(g.certificationAchievements, t.certificationAchievements, CertificationWrite),
      FoldSets(g.gradesDistribution, t.gradesDistribution, GradeWrite),
      FoldSets(g.issuedBadges, t.issuedBadges, BadgeWrite))
  }

  // ---------------------------------------------------------------------
  // Label keys

  /** Two id-and-name keys are equal exactly when both the ids and the names are. */
  lemma IdNameKeyInjective(id1: int, name1: string, id2: int, name2: string)
    ensures IdNameKey(id1, name1) == IdNameKey(id2, name2) <==> id1 == id2 && name1 == name2
  {
    IntToStringInjective(id1, id2);
    if IdNameKey(id1, name1) == IdNameKey(id2, name2) {
      assert IdNameKey(id1, name1)[0] == IdNameKey(id2, name2)[0];
      assert IdNameKey(id1, name1)[1] == IdNameKey(id2, name2)[1];
    }
  }

  /** Two quiz keys are equal exactly when the quiz ids are. */
  lemma QuizKeyInjective(id1: int, id2: int)
    ensures QuizKey(id1) == QuizKey(id2) <==> id1 == id2
  {
    IntToStringInjective(id1, id2);
    if QuizKey(id1) == QuizKey(id2) {
      assert QuizKey(id1)[0] == QuizKey(id2)[0];
    }
  }

  /** A walk whose every set call uses an `n`-value key keeps a series of `n`-value keys. */
  lemma FoldKeepsArity<R>(m: Series, rows: seq<R>, write: R -> Option<Update>, n: nat)
    requires HasArity(m, n)
    requires forall r :: write(r).Some? ==> |write(r).value.key| == n
    ensures HasArity(FoldSets(m, rows, write), n)
  {
    FoldPreserves(m, rows, write, (k: Labels, v: real) => |k| == n);
  }

  /** A tick keeps every key at the arity its gauge declares. */
  lemma TickWellShaped(g: GaugeState, t: TickInput)
    requires WellShaped(g)
    ensures WellShaped(Tick(g, t))
  {
    var h := Tick(g, t);
    assert HasArity(h.enrolledPerCourse, 2) by {
      FoldKeepsArity(g.enrolledPerCourse, t.enrolledPerCourse, EnrolledWrite, 2);
    }
    assert HasArity(h.courseCompletionRate, 2) by {
      FoldKeepsArity(g.courseCompletionRate, t.courseCompletionRates, CompletionWrite, 2);
    }
    assert HasArity(h.quizAttempts, 1) by {
      FoldKeepsArity(g.quizAttempts, t.quizAttemptsAndSuccess, QuizAttemptsWrite, 1);
    }
    assert HasArity(h.quizSuccessRate, 1) by {
      FoldKeepsArity(g.quizSuccessRate, t.quizAttemptsAndSuccess, QuizSuccessWrite, 1);
    }
    assert HasArity(h.certificationAchievements, 2) by {
      FoldKeepsArity(g.certificationAchievements, t.certificationAchievements, CertificationWrite, 2);
    }
    assert HasArity(h.gradesDistribution, 2) by {
      FoldKeepsArity(g.gradesDistribution, t.gradesDistribution, GradeWrite, 2);
    }
    assert HasArity(h.issuedBadges, 1) by {
      FoldKeepsArity(g.issuedBadges, t.issuedBadges, BadgeWrite, 1);
    }
  }

  // ---------------------------------------------------------------------
  // Nothing is removed; what no row names is unchanged

  /** No tick removes a series from any labeled gauge. */
  lemma TickNeverRemoves(g: GaugeState, t: TickInput)
    ensures g.enrolledPerCourse.Keys <= Tick(g, t).enrolledPerCourse.Keys
    ensures g.courseCompletionRate.Keys <= Tick(g, t).courseCompletionRate.Keys
    ensures g.quizAttempts.Keys <= Tick(g, t).quizAttempts.Keys
    ensures g.quizSuccessRate.Keys <= Tick(g, t).quizSuccessRate.Keys
    ensures g.certificationAchievements.Keys <= Tick(g, t).certificationAchievements.Keys
    ensures g.gradesDistribution.Keys <= Tick(g, t).gradesDistribution.Keys
    ensures g.issuedBadges.Keys <= Tick(g, t).issuedBadges.Keys
  {
    var h := Tick(g, t);
    forall k | k in g.enrolledPerCourse ensures k in h.enrolledPerCourse {
      FoldDomain(g.enrolledPerCourse, t.enrolledPerCourse, EnrolledWrite, k);
    }
    forall k | k in g.courseCompletionRate ensures k in h.courseCompletionRate {
      FoldDomain(g.courseCompletionRate, t.courseCompletionRates, CompletionWrite, k);
    }
    forall k | k in g.quizAttempts ensures k in h.quizAttempts {
      FoldDomain(g.quizAttempts, t.quizAttemptsAndSuccess, QuizAttemptsWrite, k);
    }
    forall k | k in g.quizSuccessRate ensures k in h.quizSuccessRate {
      FoldDomain(g.quizSuccessRate, t.quizAttemptsAndSuccess, QuizSuccessWrite, k);
    }
    forall k | k in g.certificationAchievements ensures k in h.certificationAchievements {
      FoldDomain(g.certificationAchievements, t.certificationAchievements, CertificationWrite, k);
    }
    forall k | k in g.gradesDistribution ensures k in h.gradesDistribution {
      FoldDomain(g.gradesDistribution, t.gradesDistribution, GradeWrite, k);
    }
    forall k | k in g.issuedBadges ensures k in h.issuedBadges {
      FoldDomain(g.issuedBadges, t.issuedBadges, BadgeWrite, k);
    }
  }

  /** A series is present after the tick exactly when it was before or some row set it. */
  lemma EnrolledDomain(g: GaugeState, t: TickInput, k: Labels)
    ensures k in Tick(g, t).enrolledPerCourse <==>
      k in g.enrolledPerCourse ||
      exists i :: 0 <= i < |t.enrolledPerCourse| &&
        IdNameKey(t.enrolledPerCourse[i].courseId, t.enrolledPerCourse[i].courseName) == k
  {
    FoldDomain(g.enrolledPerCourse, t.enrolledPerCourse, EnrolledWrite, k);
  }

  /** Course series that no enrolment row names keep their value. */
  lemma EnrolledUnnamedUnchanged(g: GaugeState, t: TickInput, k: Labels)
    requires forall i :: 0 <= i < |t.enrolledPerCourse| ==>
      IdNameKey(t.enrolledPerCourse[i].courseId, t.enrolledPerCourse[i].courseName) != k
    ensures k in Tick(g, t).enrolledPerCourse <==> k in g.enrolledPerCourse
    ensures k in g.enrolledPerCourse ==> Tick(g, t).enrolledPerCourse[k] == g.enrolledPerCourse[k]
  {
    FoldUntouched(g.enrolledPerCourse, t.enrolledPerCourse, EnrolledWrite, k);
  }

  /** Certification series that no row names keep their value. */
  lemma CertificationUnnamedUnchanged(g: GaugeState, t: TickInput, k: Labels)
    requires forall i :: 0 <= i < |t.certificationAchievements| ==>
      IdNameKey(t.certificationAchievements[i].certificationId, t.certificationAchievements[i].certificationName) != k
    ensures k in Tick(g, t).certificationAchievements <==> k in g.certificationAchievements
    ensures k in g.certificationAchievements ==> Tick(g, t).certificationAchievements[k] == g.certificationAchievements[k]
  {
    FoldUntouched(g.certificationAchievements, t.certificationAchievements, CertificationWrite, k);
  }

  /** Each certification row sets its series to its count, when no later row names the same certification. */
  lemma CertificationSet(g: GaugeState, t: TickInput, i: nat)
    requires i < |t.certificationAchievements|
    requires forall j :: i < j < |t.certificationAchievements| ==>
      (t.certificationAchievements[j].certificationId, t.certificationAchievements[j].certificationName) !=
      (t.certificationAchievements[i].certificationId, t.certificationAchievements[i].certificationName)
    ensures IdNameKey(t.certificationAchievements[i].certificationId, t.certificationAchievements[i].certificationName)
      in Tick(g, t).certificationAchievements
    ensures Tick(g, t).certificationAchievements[
        IdNameKey(t.certificationAchievements[i].certificationId, t.certificationAchievements[i].certificationName)]
      == t.certificationAchievements[i].totalIssued
  {
    var rows := t.certificationAchievements;
    forall j | i < j < |rows|
      ensures CertificationWrite(rows[j]).value.key != CertificationWrite(rows[i]).value.key
    {
      IdNameKeyInjective(rows[j].certificationId, rows[j].certificationName,
        rows[i].certificationId, rows[i].certificationName);
    }
    FoldLastWins(g.certificationAchievements, rows, CertificationWrite, i, CertificationWrite(rows[i]).value);
  }

  /** Badge series that no row names keep their value. */
  lemma BadgeUnnamedUnchanged(g: GaugeState, t: TickInput, k: Labels)
    requires forall i :: 0 <= i < |t.issuedBadges| ==> [t.issuedBadges[i].badgeName] != k
    ensures k in Tick(g, t).issuedBadges <==> k in g.issuedBadges
    ensures k in g.issuedBadges ==> Tick(g, t).issuedBadges[k] == g.issuedBadges[k]
  {
    FoldUntouched(g.issuedBadges, t.issuedBadges, BadgeWrite, k);
  }

  /** Each badge row sets its name's series to its count, when no later row has the same name. */
  lemma BadgeSet(g: GaugeState, t: TickInput, i: nat)
    requires i < |t.issuedBadges|
    requires forall j :: i < j < |t.issuedBadges| ==> t.issuedBadges[j].badgeName != t.issuedBadges[i].badgeName
    ensures [t.issuedBadges[i].badgeName] in Tick(g, t).issuedBadges
    ensures Tick(g, t).issuedBadges[[t.issuedBadges[i].badgeName]] == t.issuedBadges[i].issuedCount
  {
    var rows := t.issuedBadges;
    forall j | i < j < |rows|
      ensures BadgeWrite(rows[j]).value.key != BadgeWrite(rows[i]).value.key
    {
      assert BadgeWrite(rows[j]).value.key[0] == rows[j].badgeName;
    }
    FoldLastWins(g.issuedBadges, rows, BadgeWrite, i, BadgeWrite(rows[i]).value);
  }

  /** Each enrolment row sets its course's series to its count, when no later row names the same course. */
  lemma EnrolledSet(g: GaugeState, t: TickInput, i: nat)
    requires i < |t.enrolledPerCourse|
    requires forall j :: i < j < |t.enrolledPerCourse| ==>
      (t.enrolledPerCourse[j].courseId, t.enrolledPerCourse[j].courseName) !=
      (t.enrolledPerCourse[i].courseId, t.enrolledPerCourse[i].courseName)
    ensures IdNameKey(t.enrolledPerCourse[i].courseId, t.enrolledPerCourse[i].courseName) in Tick(g, t).enrolledPerCourse
    ensures Tick(g, t).enrolledPerCourse[IdNameKey(t.enrolledPerCourse[i].courseId, t.enrolledPerCourse[i].courseName)]
      == t.enrolledPerCourse[i].enrolledUsers
  {
    var rows := t.enrolledPerCourse;
    forall j | i < j < |rows|
      ensures EnrolledWrite(rows[j]).value.key != EnrolledWrite(rows[i]).value.key
    {
      IdNameKeyInjective(rows[j].courseId, rows[j].courseName, rows[i].courseId, rows[i].courseName);
    }
    FoldLastWins(g.enrolledPerCourse, rows, EnrolledWrite, i, EnrolledWrite(rows[i]).value);
  }

  // ---------------------------------------------------------------------
  // Course completion rate

  /** A completion-rate series changes only when a row names that course with `total_enrolled > 0`. */
  lemma CompletionUnchangedWithoutEnrolment(g: GaugeState, t: TickInput, k: Labels)
    requires forall i :: (0 <= i < |t.courseCompletionRates| &&
      IdNameKey(t.courseCompletionRates[i].courseId, t.courseCompletionRates[i].courseName) == k) ==>
      t.courseCompletionRates[i].totalEnrolled <= 0.0
    ensures k in Tick(g, t).courseCompletionRate <==> k in g.courseCompletionRate
    ensures k in g.courseCompletionRate ==> Tick(g, t).courseCompletionRate[k] == g.courseCompletionRate[k]
  {
    FoldUntouched(g.courseCompletionRate, t.courseCompletionRates, CompletionWrite, k);
  }

  /** A new completion-rate series appears only for a course some row names with `total_enrolled > 0`. */
  lemma CompletionAppearsOnlyWhenEnrolled(g: GaugeState, t: TickInput, k: Labels)
    requires k in Tick(g, t).courseCompletionRate && k !in g.courseCompletionRate
    ensures exists i :: (0 <= i < |t.courseCompletionRates| &&
      IdNameKey(t.courseCompletionRates[i].courseId, t.courseCompletionRates[i].courseName) == k &&
      t.courseCompletionRates[i].totalEnrolled > 0.0)
  {
    FoldDomain(g.courseCompletionRate, t.courseCompletionRates, CompletionWrite, k);
  }

  /**
   * A row with `total_enrolled > 0` sets its course's rate to
   * `total_completed / total_enrolled * 100`, when every later row for the
   * same course is skipped by the guard.
   */
  lemma CompletionSet(g: GaugeState, t: TickInput, i: nat)
    requires i < |t.courseCompletionRates|
    requires t.courseCompletionRates[i].totalEnrolled > 0.0
    requires forall j :: (i < j < |t.courseCompletionRates| &&
      (t.courseCompletionRates[j].courseId, t.courseCompletionRates[j].courseName) ==
      (t.courseCompletionRates[i].courseId, t.courseCompletionRates[i].courseName)) ==>
      t.courseCompletionRates[j].totalEnrolled <= 0.0
    ensures IdNameKey(t.courseCompletionRates[i].courseId, t.courseCompletionRates[i].courseName) in Tick(g, t).courseCompletionRate
    ensures Tick(g, t).courseCompletionRate[IdNameKey(t.courseCompletionRates[i].courseId, t.courseCompletionRates[i].courseName)]
      == t.courseCompletionRates[i].totalCompleted / t.courseCompletionRates[i].totalEnrolled * 100.0
  {
    var rows := t.courseCompletionRates;
    forall j | i < j < |rows| && CompletionWrite(rows[j]).Some?
      ensures CompletionWrite(rows[j]).value.key != CompletionWrite(rows[i]).value.key
    {
      IdNameKeyInjective(rows[j].courseId, rows[j].courseName, rows[i].courseId, rows[i].courseName);
    }
    FoldLastWins(g.courseCompletionRate, rows, CompletionWrite, i, CompletionWrite(rows[i]).value);
  }

  // ---------------------------------------------------------------------
  // Quiz attempts and success rate

  /** Every quiz row sets its attempt count, zero included. */
  lemma QuizAttemptsSet(g: GaugeState, t: TickInput, i: nat)
    requires i < |t.quizAttemptsAndSuccess|
    requires forall j :: i < j < |t.quizAttemptsAndSuccess| ==>
      t.quizAttemptsAndSuccess[j].quizId != t.quizAttemptsAndSuccess[i].quizId
    ensures QuizKey(t.quizAttemptsAndSuccess[i].quizId) in Tick(g, t).quizAttempts
    ensures Tick(g, t).quizAttempts[QuizKey(t.quizAttemptsAndSuccess[i].quizId)] == t.quizAttemptsAndSuccess[i].totalAttempts
  {
    var rows := t.quizAttemptsAndSuccess;
    forall j | i < j < |rows|
      ensures QuizAttemptsWrite(rows[j]).value.key != QuizAttemptsWrite(rows[i]).value.key
    {
      QuizKeyInjective(rows[j].quizId, rows[i].quizId);
    }
    FoldLastWins(g.quizAttempts, rows, QuizAttemptsWrite, i, QuizAttemptsWrite(rows[i]).value);
  }

  /** A quiz's attempt-count series that no row names keeps its value. */
  lemma QuizAttemptsUnnamedUnchanged(g: GaugeState, t: TickInput, id: int)
    requires forall i :: 0 <= i < |t.quizAttemptsAndSuccess| ==> t.quizAttemptsAndSuccess[i].quizId != id
    ensures QuizKey(id) in Tick(g, t).quizAttempts <==> QuizKey(id) in g.quizAttempts
    ensures QuizKey(id) in g.quizAttempts ==> Tick(g, t).quizAttempts[QuizKey(id)] == g.quizAttempts[QuizKey(id)]
  {
    var rows := t.quizAttemptsAndSuccess;
    forall i | 0 <= i < |rows|
      ensures QuizAttemptsWrite(rows[i]).value.key != QuizKey(id)
    {
      QuizKeyInjective(rows[i].quizId, id);
    }
    FoldUntouched(g.quizAttempts, rows, QuizAttemptsWrite, QuizKey(id));
  }

  /**
   * A row with `total_attempts > 0` sets the quiz's success rate to
   * `total_success / total_attempts * 100`, when every later row for the
   * same quiz is skipped by the guard.
   */
  lemma QuizSuccessSet(g: GaugeState, t: TickInput, i: nat)
    requires i < |t.quizAttemptsAndSuccess|
    requires t.quizAttemptsAndSuccess[i].totalAttempts > 0.0
    requires forall j :: (i < j < |t.quizAttemptsAndSuccess| &&
      t.quizAttemptsAndSuccess[j].quizId == t.quizAttemptsAndSuccess[i].quizId) ==>
      t.quizAttemptsAndSuccess[j].totalAttempts <= 0.0
    ensures QuizKey(t.quizAttemptsAndSuccess[i].quizId) in Tick(g, t).quizSuccessRate
    ensures Tick(g, t).quizSuccessRate[QuizKey(t.quizAttemptsAndSuccess[i].quizId)]
      == t.quizAttemptsAndSuccess[i].totalSuccess / t.quizAttemptsAndSuccess[i].totalAttempts * 100.0
  {
    var rows := t.quizAttemptsAndSuccess;
    forall j | i < j < |rows| && QuizSuccessWrite(rows[j]).Some?
      ensures QuizSuccessWrite(rows[j]).value.key != QuizSuccessWrite(rows[i]).value.key
    {
      QuizKeyInjective(rows[j].quizId, rows[i].quizId);
    }
    FoldLastWins(g.quizSuccessRate, rows, QuizSuccessWrite, i, QuizSuccessWrite(rows[i]).value);
  }

  /** A quiz's success-rate series changes only when a row names it with `total_attempts > 0`. */
  lemma QuizSuccessUnchangedWithoutAttempts(g: GaugeState, t: TickInput, id: int)
    requires forall i :: 0 <= i < |t.quizAttemptsAndSuccess| && t.quizAttemptsAndSuccess[i].quizId == id ==>
      t.quizAttemptsAndSuccess[i].totalAttempts <= 0.0
    ensures QuizKey(id) in Tick(g, t).quizSuccessRate <==> QuizKey(id) in g.quizSuccessRate
    ensures QuizKey(id) in g.quizSuccessRate ==> Tick(g, t).quizSuccessRate[QuizKey(id)] == g.quizSuccessRate[QuizKey(id)]
  {
    var rows := t.quizAttemptsAndSuccess;
    forall i | 0 <= i < |rows| && QuizSuccessWrite(rows[i]).Some?
      ensures QuizSuccessWrite(rows[i]).value.key != QuizKey(id)
    {
      QuizKeyInjective(rows[i].quizId, id);
    }
    FoldUntouched(g.quizSuccessRate, rows, QuizSuccessWrite, QuizKey(id));
  }

  // ---------------------------------------------------------------------
  // Grades distribution

  /** A course's grade series changes only when a row names it with a non-NULL average. */
  lemma GradeUnchangedWithoutAverage(g: GaugeState, t: TickInput, k: Labels)
    requires forall i :: (0 <= i < |t.gradesDistribution| &&
      IdNameKey(t.gradesDistribution[i].courseId, t.gradesDistribution[i].courseName) == k) ==>
      t.gradesDistribution[i].averageGrade.None?
    ensures k in Tick(g, t).gradesDistribution <==> k in g.gradesDistribution
    ensures k in g.gradesDistribution ==> Tick(g, t).gradesDistribution[k] == g.gradesDistribution[k]
  {
    FoldUntouched(g.gradesDistribution, t.gradesDistribution, GradeWrite, k);
  }

  /**
   * A row with an average sets its course's grade series to exactly that
   * average, when every later row for the same course has a NULL average.
   */
  lemma GradeSet(g: GaugeState, t: TickInput, i: nat)
    requires i < |t.gradesDistribution|
    requires t.gradesDistribution[i].averageGrade.Some?
    requires forall j :: (i < j < |t.gradesDistribution| &&
      (t.gradesDistribution[j].courseId, t.gradesDistribution[j].courseName) ==
      (t.gradesDistribution[i].courseId, t.gradesDistribution[i].courseName)) ==>
      t.gradesDistribution[j].averageGrade.None?
    ensures IdNameKey(t.gradesDistribution[i].courseId, t.gradesDistribution[i].courseName) in Tick(g, t).gradesDistribution
    ensures Tick(g, t).gradesDistribution[IdNameKey(t.gradesDistribution[i].courseId, t.gradesDistribution[i].courseName)]
      == t.gradesDistribution[i].averageGrade.value
  {
    var rows := t.gradesDistribution;
    forall j | i < j < |rows| && GradeWrite(rows[j]).Some?
      ensures GradeWrite(rows[j]).value.key != GradeWrite(rows[i]).value.key
    {
      IdNameKeyInjective(rows[j].courseId, rows[j].courseName, rows[i].courseId, rows[i].courseName);
    }
    FoldLastWins(g.gradesDistribution, rows, GradeWrite, i, GradeWrite(rows[i]).value);
  }

  // ---------------------------------------------------------------------
  // Renamed courses

  /**
   * The key is the pair (id, name): a course that appears under a new name
   * gets a second series, and the series under its old name stays at its
   * last value, unless a row of the same tick still names the old pair.
   */
  lemma RenamedCourseKeepsOldSeries(g: GaugeState, t: TickInput, i: nat, oldName: string)
    requires i < |t.enrolledPerCourse|
    requires t.enrolledPerCourse[i].courseName != oldName
    requires IdNameKey(t.enrolledPerCourse[i].courseId, oldName) in g.enrolledPerCourse
    requires forall j :: 0 <= j < |t.enrolledPerCourse| ==>
      (t.enrolledPerCourse[j].courseId, t.enrolledPerCourse[j].courseName) != (t.enrolledPerCourse[i].courseId, oldName)
    ensures IdNameKey(t.enrolledPerCourse[i].courseId, t.enrolledPerCourse[i].courseName) in Tick(g, t).enrolledPerCourse
    ensures IdNameKey(t.enrolledPerCourse[i].courseId, oldName) in Tick(g, t).enrolledPerCourse
    ensures Tick(g, t).enrolledPerCourse[IdNameKey(t.enrolledPerCourse[i].courseId, oldName)]
      == g.enrolledPerCourse[IdNameKey(t.enrolledPerCourse[i].courseId, oldName)]
    ensures IdNameKey(t.enrolledPerCourse[i].courseId, t.enrolledPerCourse[i].courseName)
      != IdNameKey(t.enrolledPerCourse[i].courseId, oldName)
  {
    var rows := t.enrolledPerCourse;
    var id := rows[i].courseId;
    var k := IdNameKey(id, oldName);
    forall j | 0 <= j < |rows| ensures IdNameKey(rows[j].courseId, rows[j].courseName) != k {
      IdNameKeyInjective(rows[j].courseId, rows[j].courseName, id, oldName);
    }
    EnrolledUnnamedUnchanged(g, t, k);
    EnrolledDomain(g, t, IdNameKey(id, rows[i].courseName));
    IdNameKeyInjective(id, rows[i].courseName, id, oldName);
  }

  // ---------------------------------------------------------------------
  // Idempotence

  /** Applying the same results twice gives the state applying them once gives. */
  lemma TickIdempotent(g: GaugeState, t: TickInput)
    ensures Tick(Tick(g, t), t) == Tick(g, t)
  {
    FoldIdempotent(g.enrolledPerCourse, t.enrolledPerCourse, EnrolledWrite);
    FoldIdempotent(g.courseCompletionRate, t.courseCompletionRates, CompletionWrite);
    FoldIdempotent(g.quizAttempts, t.quizAttemptsAndSuccess, QuizAttemptsWrite);
    FoldIdempotent(g.quizSuccessRate, t.quizAttemptsAndSuccess, QuizSuccessWrite);
    FoldIdempotent(g.certificationAchievements, t.certificationAchievements, CertificationWrite);
    FoldIdempotent(g.gradesDistribution, t.gradesDistribution, GradeWrite);
    FoldIdempotent(g.issuedBadges, t.issuedBadges, BadgeWrite);
  }

  // ---------------------------------------------------------------------
  // Bounds

  /** A count of successes out of a positive total is a percentage in [0, 100]. */
  lemma RateBounded(part: real, whole: real)
    requires 0.0 <= part <= whole && whole > 0.0
    ensures 0.0 <= Rate(part, whole) <= 100.0
  {
    assert part / whole <= 1.0 by {
      assert part / whole * whole == part;
    }
  }

  ghost predicate Percentages(m: Series) {
    forall k :: k in m ==> 0.0 <= m[k] <= 100.0
  }

  /**
   * When every row has `0 <= total_completed <= total_enrolled`, as the
   * COUNT and SUM-CASE of the query guarantee, completion rates stay percentages.
   */
  lemma CompletionRatesBounded(g: GaugeState, t: TickInput)
    requires Percentages(g.courseCompletionRate)
    requires forall i :: 0 <= i < |t.courseCompletionRates| ==>
      0.0 <= t.courseCompletionRates[i].totalCompleted <= t.courseCompletionRates[i].totalEnrolled
    ensures Percentages(Tick(g, t).courseCompletionRate)
  {
    var rows := t.courseCompletionRates;
    var P := (k: Labels, v: real) => 0.0 <= v <= 100.0;
    forall i | 0 <= i < |rows| && CompletionWrite(rows[i]).Some?
      ensures P(CompletionWrite(rows[i]).value.key, CompletionWrite(rows[i]).value.value)
    {
      RateBounded(rows[i].totalCompleted, rows[i].totalEnrolled);
    }
    FoldPreserves(g.courseCompletionRate, rows, CompletionWrite, P);
  }

  /** When every quiz row has `0 <= total_success <= total_attempts`, success rates stay percentages. */
  lemma QuizSuccessRatesBounded(g: GaugeState, t: TickInput)
    requires Percentages(g.quizSuccessRate)
    requires forall i :: 0 <= i < |t.quizAttemptsAndSuccess| ==>
      0.0 <= t.quizAttemptsAndSuccess[i].totalSuccess <= t.quizAttemptsAndSuccess[i].totalAttempts
    ensures Percentages(Tick(g, t).quizSuccessRate)
  {
    var rows := t.quizAttemptsAndSuccess;
    var P := (k: Labels, v: real) => 0.0 <= v <= 100.0;
    forall i | 0 <= i < |rows| && QuizSuccessWrite(rows[i]).Some?
      ensures P(QuizSuccessWrite(rows[i]).value.key, QuizSuccessWrite(rows[i]).value.value)
    {
      RateBounded(rows[i].totalSuccess, rows[i].totalAttempts);
    }
    FoldPreserves(g.quizSuccessRate, rows, QuizSuccessWrite, P);
  }

  // ---------------------------------------------------------------------
  // A worked tick

  /**
   * Enrolment rows (1, "Intro", 10) and (2, "Advanced", 0) and completion rows
   * (1, "Intro", 10, 5) and (2, "Advanced", 0, 0) from a fresh start: both
   * enrolment series are set, course 1's completion rate is 50, and course 2
   * gets no completion-rate series.
   */
  lemma IntroAdvancedExample(t: TickInput)
    requires t.enrolledPerCourse == [EnrolledRow(1, "Intro", 10.0), EnrolledRow(2, "Advanced", 0.0)]
    requires t.courseCompletionRates == [CompletionRow(1, "Intro", 10.0, 5.0), CompletionRow(2, "Advanced", 0.0, 0.0)]
    ensures Tick(Initial, t).enrolledPerCourse == map[["1", "Intro"] := 10.0, ["2", "Advanced"] := 0.0]
    ensures Tick(Initial, t).courseCompletionRate == map[["1", "Intro"] := 50.0]
  {
    assert IntToString(1) == "1";
    assert IntToString(2) == "2";
    var intro, advanced := IdNameKey(1, "Intro"), IdNameKey(2, "Advanced");
    assert intro == ["1", "Intro"] && advanced == ["2", "Advanced"];
    var e := t.enrolledPerCourse;
    assert e[..1][..0] == [];
    assert FoldSets(map[], e[..1], EnrolledWrite) == map[intro := 10.0];
    assert FoldSets(map[], e, EnrolledWrite) == map[intro := 10.0][advanced := 0.0];
    var c := t.courseCompletionRates;
    assert c[..1][..0] == [];
    assert FoldSets(map[], c[..1], CompletionWrite) == map[intro := 50.0];
    assert FoldSets(map[], c, CompletionWrite) == map[intro := 50.0];
  }
}
