/**
 * The fixed column shape of each group's rows, and the unpacking the
 * collection tick performs on the results dictionary: each scalar is handed
 * to a gauge as a number, each row is unpacked into the loop's variables.
 * What cannot be unpacked or converted is an error, as the exception it
 * raises ends the exporter.
 */
module Rows {
  import opened Wrappers
  import opened Catalog

  datatype EnrolledRow = EnrolledRow(courseId: int, courseName: string, enrolledUsers: real)
  datatype CompletionRow = CompletionRow(courseId: int, courseName: string, totalEnrolled: real, totalCompleted: real)
  datatype QuizRow = QuizRow(quizId: int, totalAttempts: real, totalSuccess: real)
  datatype CertificationRow = CertificationRow(certificationId: int, certificationName: string, totalIssued: real)
  datatype GradeRow = GradeRow(courseId: int, courseName: string, averageGrade: Option<real>)
  datatype BadgeRow = BadgeRow(badgeName: string, issuedCount: real)

  /** One tick's query results, after unpacking. */
  datatype TickInput = TickInput(
    activeUsers: real,
    onlineUsers: real,
    allUsers: real,
    dbSize: real,
    avgTimeOnSite: real,
    failedLogins: real,
    assignmentsSubmitted: real,
    enrolledPerCourse: seq<EnrolledRow>,
    courseCompletionRates: seq<CompletionRow>,
    quizAttemptsAndSuccess: seq<QuizRow>,
    certificationAchievements: seq<CertificationRow>,
    gradesDistribution: seq<GradeRow>,
    issuedBadges: seq<BadgeRow>)

  /** A cell a gauge accepts as its value: an integer or a decimal number. */
  function Numeric(c: Cell): Option<real> {
    match c
    case Int(i) => Some(i as real)
    case Num(x) => Some(x)
    case _ => None
  }

  function DecodeEnrolled(c: Row): Option<EnrolledRow> {
    if |c| == 3 && c[0].Int? && c[1].Text? && Numeric(c[2]).Some?
    then Some(EnrolledRow(c[0].i, c[1].s, Numeric(c[2]).value)) else None
  }

  function DecodeCompletion(c: Row): Option<CompletionRow> {
    if |c| == 4 && c[0].Int? && c[1].Text? && Numeric(c[2]).Some? && Numeric(c[3]).Some?
    then Some(CompletionRow(c[0].i, c[1].s, Numeric(c[2]).value, Numeric(c[3]).value)) else None
  }

  function DecodeQuiz(c: Row): Option<QuizRow> {
    if |c| == 3 && c[0].Int? && Numeric(c[1]).Some? && Numeric(c[2]).Some?
    then Some(QuizRow(c[0].i, Numeric(c[1]).value, Numeric(c[2]).value)) else None
  }

  function DecodeCertification(c: Row): Option<CertificationRow> {
    if |c| == 3 && c[0].Int? && c[1].Text? && Numeric(c[2]).Some?
    then Some(CertificationRow(c[0].i, c[1].s, Numeric(c[2]).value)) else None
  }

  /** The average grade column is nullable: NULL unpacks to None. */
  function DecodeGrade(c: Row): Option<GradeRow> {
    if |c| == 3 && c[0].Int? && c[1].Text? && (c[2].Null? || Numeric(c[2]).Some?)
    then Some(GradeRow(c[0].i, c[1].s, if c[2].Null? then None else Numeric(c[2])))
    else None
  }

  function DecodeBadge(c: Row): Option<BadgeRow> {
    if |c| == 2 && c[0].Text? && Numeric(c[1]).Some?
    then Some(BadgeRow(c[0].s, Numeric(c[1]).value)) else None
  }

  /** Unpacks every row, failing when any one of them does not unpack. */
  function DecodeRows<R>(rows: seq<Row>, decode: Row -> Option<R>): (r: Option<seq<R>>)
    ensures r.Some? <==> forall i :: 0 <= i < |rows| ==> decode(rows[i]).Some?
    ensures r.Some? ==> |r.value| == |rows| && forall i :: 0 <= i < |rows| ==> decode(rows[i]) == Some(r.value[i])
    decreases |rows|
  {
    if rows == [] then Some([])
    else
      match decode(rows[0])
      case None => None
      case Some(x) =>
        match DecodeRows(rows[1..], decode)
        case None => None
        case Some(xs) => Some([x] + xs)
  }

  function ScalarOf(res: Results, g: Group): Result<real, Error> {
    if g !in res then Failure(MissingGroup(g))
    else match res[g]
      case RowSet(_) => Failure(WrongShape(g))
      case Scalar(c) => if Numeric(c).Some? then Success(Numeric(c).value) else Failure(NotNumeric(g))
  }

  function RowsOf<R>(res: Results, g: Group, decode: Row -> Option<R>): Result<seq<R>, Error> {
    if g !in res then Failure(MissingGroup(g))
    else match res[g]
      case Scalar(_) => Failure(WrongShape(g))
      case RowSet(rows) =>
        match DecodeRows(rows, decode)
        case None => Failure(BadRow(g))
        case Some(xs) => Success(xs)
  }

  /** Unpacks the results dictionary in the order the tick reads it. */
  function Decode(res: Results): Result<TickInput, Error> {
    var active :- ScalarOf(res, ActiveUsers);
    var online :- ScalarOf(res, OnlineUsers);
    var all :- ScalarOf(res, AllUsers);
    var dbSize :- ScalarOf(res, DbSize);
    var avgTime :- ScalarOf(res, AvgTimeOnSite);
    var failed :- ScalarOf(res, FailedLogins);
    var submitted :- ScalarOf(res, AssignmentsSubmitted);
    var enrolled :- RowsOf(res, EnrolledPerCourse, DecodeEnrolled);
    var completion :- RowsOf(res, CourseCompletionRates, DecodeCompletion);
    var quizzes :- RowsOf(res, QuizAttemptsAndSuccess, DecodeQuiz);
    var certifications :- RowsOf(res, CertificationAchievements, DecodeCertification);
    var grades :- RowsOf(res, GradesDistribution, DecodeGrade);
    var badges :- RowsOf(res, IssuedBadges, DecodeBadge);
    Success(TickInput(active, online, all, dbSize, avgTime, failed, submitted,
      enrolled, completion, quizzes, certifications, grades, badges))
  }

  /**
   * A way of packing numbers into cells that `float()` undoes.  Which cell
   * the driver returns depends on the column's SQL type, not on the value:
   * COUNT gives an integer, SUM and AVG give a decimal even when the value
   * is whole.  The packing lemmas below hold for every such packing.
   */
  ghost predicate Packs(cell: real -> Cell) {
    forall x :: Numeric(cell(x)) == Some(x)
  }

  /** One packing: an integer cell for a whole value, a decimal cell otherwise. */
  function NumberCell(x: real): (c: Cell)
    ensures Numeric(c) == Some(x)
    ensures c.Int? <==> x == x.Floor as real
  {
    if x == x.Floor as real then Int(x.Floor) else Num(x)
  }

  /** Another packing: a decimal cell for every value, whole or not. */
  function DecimalCell(x: real): (c: Cell)
    ensures Numeric(c) == Some(x)
    ensures c.Num?
  {
    Num(x)
  }

  function EncodeEnrolled(cell: real -> Cell, r: EnrolledRow): Row {
    [Int(r.courseId), Text(r.courseName), cell(r.enrolledUsers)]
  }

  function EncodeCompletion(cell: real -> Cell, r: CompletionRow): Row {
    [Int(r.courseId), Text(r.courseName), cell(r.totalEnrolled), cell(r.totalCompleted)]
  }

  function EncodeQuiz(cell: real -> Cell, r: QuizRow): Row {
    [Int(r.quizId), cell(r.totalAttempts), cell(r.totalSuccess)]
  }

  function EncodeCertification(cell: real -> Cell, r: CertificationRow): Row {
    [Int(r.certificationId), Text(r.certificationName), cell(r.totalIssued)]
  }

  function EncodeGrade(cell: real -> Cell, r: GradeRow): Row {
    [Int(r.courseId), Text(r.courseName), if r.averageGrade.Some? then cell(r.averageGrade.value) else Null]
  }

  function EncodeBadge(cell: real -> Cell, r: BadgeRow): Row {
    [Text(r.badgeName), cell(r.issuedCount)]
  }

  function EncodeRows<R>(xs: seq<R>, encode: R -> Row): (rows: seq<Row>)
    ensures |rows| == |xs| && forall i :: 0 <= i < |xs| ==> rows[i] == encode(xs[i])
  {
    seq(|xs|, i requires 0 <= i < |xs| => encode(xs[i]))
  }

  /** What the results dictionary holds for one group of the given tick input. */
  function EncodeGroup(cell: real -> Cell, t: TickInput, g: Group): GroupResult {
    match g
    case ActiveUsers => Scalar(cell(t.activeUsers))
    case OnlineUsers => Scalar(cell(t.onlineUsers))
    case AllUsers => Scalar(cell(t.allUsers))
    case DbSize => Scalar(cell(t.dbSize))
    case AvgTimeOnSite => Scalar(cell(t.avgTimeOnSite))
    case FailedLogins => Scalar(cell(t.failedLogins))
    case AssignmentsSubmitted => Scalar(cell(t.assignmentsSubmitted))
    case EnrolledPerCourse => RowSet(EncodeRows(t.enrolledPerCourse, r => EncodeEnrolled(cell, r)))
    case CourseCompletionRates => RowSet(EncodeRows(t.courseCompletionRates, r => EncodeCompletion(cell, r)))
    case QuizAttemptsAndSuccess => RowSet(EncodeRows(t.quizAttemptsAndSuccess, r => EncodeQuiz(cell, r)))
    case CertificationAchievements => RowSet(EncodeRows(t.certificationAchievements, r => EncodeCertification(cell, r)))
    case GradesDistribution => RowSet(EncodeRows(t.gradesDistribution, r => EncodeGrade(cell, r)))
    case IssuedBadges => RowSet(EncodeRows(t.issuedBadges, r => EncodeBadge(cell, r)))
  }

  /** A results dictionary a database answer could produce for the given tick input. */
  function Encode(cell: real -> Cell, t: TickInput): Results {
    map g: Group :: EncodeGroup(cell, t, g)
  }

  /** Unpacking what was packed gives back the rows. */
  lemma DecodeEncodeRows<R>(xs: seq<R>, encode: R -> Row, decode: Row -> Option<R>)
    requires forall x :: decode(encode(x)) == Some(x)
    ensures DecodeRows(EncodeRows(xs, encode), decode) == Some(xs)
  {
    var rows := EncodeRows(xs, encode);
    var r := DecodeRows(rows, decode);
    assert forall i :: 0 <= i < |rows| ==> decode(rows[i]) == Some(xs[i]);
    assert r.value == xs;
  }

  /** A row-set entry that packs some rows unpacks to exactly those rows. */
  lemma RowsOfEncoded<R>(res: Results, g: Group, xs: seq<R>, encode: R -> Row, decode: Row -> Option<R>)
    requires g in res && res[g] == RowSet(EncodeRows(xs, encode))
    requires forall x :: decode(encode(x)) == Some(x)
    ensures RowsOf(res, g, decode) == Success(xs)
  {
    DecodeEncodeRows(xs, encode, decode);
  }

  /** Decoding succeeds with `t` when every group unpacks to the matching part of `t`. */
  lemma DecodeOfParts(t: TickInput, res: Results)
    requires ScalarOf(res, ActiveUsers) == Success(t.activeUsers)
    requires ScalarOf(res, OnlineUsers) == Success(t.onlineUsers)
    requires ScalarOf(res, AllUsers) == Success(t.allUsers)
    requires ScalarOf(res, DbSize) == Success(t.dbSize)
    requires ScalarOf(res, AvgTimeOnSite) == Success(t.avgTimeOnSite)
    requires ScalarOf(res, FailedLogins) == Success(t.failedLogins)
    requires ScalarOf(res, AssignmentsSubmitted) == Success(t.assignmentsSubmitted)
    requires RowsOf(res, EnrolledPerCourse, DecodeEnrolled) == Success(t.enrolledPerCourse)
    requires RowsOf(res, CourseCompletionRates, DecodeCompletion) == Success(t.courseCompletionRates)
    requires RowsOf(res, QuizAttemptsAndSuccess, DecodeQuiz) == Success(t.quizAttemptsAndSuccess)
    requires RowsOf(res, CertificationAchievements, DecodeCertification) == Success(t.certificationAchievements)
    requires RowsOf(res, GradesDistribution, DecodeGrade) == Success(t.gradesDistribution)
    requires RowsOf(res, IssuedBadges, DecodeBadge) == Success(t.issuedBadges)
    ensures Decode(res) == Success(t)
  {
  }

  /** The scalar groups of a packed dictionary unpack to the input's numbers. */
  lemma ScalarsOfEncode(cell: real -> Cell, t: TickInput)
    requires Packs(cell)
    ensures ScalarOf(Encode(cell, t), ActiveUsers) == Success(t.activeUsers)
    ensures ScalarOf(Encode(cell, t), OnlineUsers) == Success(t.onlineUsers)
    ensures ScalarOf(Encode(cell, t), AllUsers) == Success(t.allUsers)
    ensures ScalarOf(Encode(cell, t), DbSize) == Success(t.dbSize)
    ensures ScalarOf(Encode(cell, t), AvgTimeOnSite) == Success(t.avgTimeOnSite)
    ensures ScalarOf(Encode(cell, t), FailedLogins) == Success(t.failedLogins)
    ensures ScalarOf(Encode(cell, t), AssignmentsSubmitted) == Success(t.assignmentsSubmitted)
  {
  }

  /** Unpacking a packed row gives back the row, for every row shape and every packing. */
  lemma RowRoundTrips(cell: real -> Cell)
    requires Packs(cell)
    ensures forall r :: DecodeEnrolled(EncodeEnrolled(cell, r)) == Some(r)
    ensures forall r :: DecodeCompletion(EncodeCompletion(cell, r)) == Some(r)
    ensures forall r :: DecodeQuiz(EncodeQuiz(cell, r)) == Some(r)
    ensures forall r :: DecodeCertification(EncodeCertification(cell, r)) == Some(r)
    ensures forall r :: DecodeGrade(EncodeGrade(cell, r)) == Some(r)
    ensures forall r :: DecodeBadge(EncodeBadge(cell, r)) == Some(r)
  {
    forall r: GradeRow | r.averageGrade.Some?
      ensures DecodeGrade(EncodeGrade(cell, r)) == Some(r)
    {
      var v := r.averageGrade.value;
      assert Numeric(cell(v)) == Some(v);
      assert !cell(v).Null?;
    }
  }

  /** The row-set groups of a packed dictionary unpack to the input's rows. */
  lemma RowSetsOfEncode(cell: real -> Cell, t: TickInput)
    requires Packs(cell)
    ensures RowsOf(Encode(cell, t), EnrolledPerCourse, DecodeEnrolled) == Success(t.enrolledPerCourse)
    ensures RowsOf(Encode(cell, t), CourseCompletionRates, DecodeCompletion) == Success(t.courseCompletionRates)
    ensures RowsOf(Encode(cell, t), QuizAttemptsAndSuccess, DecodeQuiz) == Success(t.quizAttemptsAndSuccess)
    ensures RowsOf(Encode(cell, t), CertificationAchievements, DecodeCertification) == Success(t.certificationAchievements)
    ensures RowsOf(Encode(cell, t), GradesDistribution, DecodeGrade) == Success(t.gradesDistribution)
    ensures RowsOf(Encode(cell, t), IssuedBadges, DecodeBadge) == Success(t.issuedBadges)
  {
    var res := Encode(cell, t);
    RowRoundTrips(cell);
    var enrolled := r => EncodeEnrolled(cell, r);
    var completion := r => EncodeCompletion(cell, r);
    var quiz := r => EncodeQuiz(cell, r);
    var certification := r => EncodeCertification(cell, r);
    var grade := r => EncodeGrade(cell, r);
    var badge := r => EncodeBadge(cell, r);
    assert res[EnrolledPerCourse] == RowSet(EncodeRows(t.enrolledPerCourse, enrolled));
    assert res[CourseCompletionRates] == RowSet(EncodeRows(t.courseCompletionRates, completion));
    assert res[QuizAttemptsAndSuccess] == RowSet(EncodeRows(t.quizAttemptsAndSuccess, quiz));
    assert res[CertificationAchievements] == RowSet(EncodeRows(t.certificationAchievements, certification));
    assert res[GradesDistribution] == RowSet(EncodeRows(t.gradesDistribution, grade));
    assert res[IssuedBadges] == RowSet(EncodeRows(t.issuedBadges, badge));
    RowsOfEncoded(res, EnrolledPerCourse, t.enrolledPerCourse, enrolled, DecodeEnrolled);
    RowsOfEncoded(res, CourseCompletionRates, t.courseCompletionRates, completion, DecodeCompletion);
    RowsOfEncoded(res, QuizAttemptsAndSuccess, t.quizAttemptsAndSuccess, quiz, DecodeQuiz);
    RowsOfEncoded(res, CertificationAchievements, t.certificationAchievements, certification, DecodeCertification);
    RowsOfEncoded(res, GradesDistribution, t.gradesDistribution, grade, DecodeGrade);
    RowsOfEncoded(res, IssuedBadges, t.issuedBadges, badge, DecodeBadge);
  }

  /**
   * `Encode` is a right inverse of `Decode`: every tick input is the
   * unpacking of any dictionary that packs it.  (`Decode` is not injective:
   * an integer 5 and a decimal 5 unpack alike.)
   */
  lemma DecodeEncode(cell: real -> Cell, t: TickInput)
    requires Packs(cell)
    ensures Decode(Encode(cell, t)) == Success(t)
  {
    ScalarsOfEncode(cell, t);
    RowSetsOfEncode(cell, t);
    DecodeOfParts(t, Encode(cell, t));
  }

  /**
   * The round trip holds both when every whole number arrives as an
   * integer cell, as from COUNT, and when every number arrives as a
   * decimal cell, as from SUM and AVG.
   */
  lemma DecodeEncodeCellKinds(t: TickInput)
    ensures Decode(Encode(NumberCell, t)) == Success(t)
    ensures Decode(Encode(DecimalCell, t)) == Success(t)
  {
    DecodeEncode(NumberCell, t);
    DecodeEncode(DecimalCell, t);
  }

  /** The exception a call raises, or `None` when it returns. */
  function ErrorOf<T>(r: Result<T, Error>): (e: Option<Error>)
    ensures e.Some? <==> r.Failure?
    ensures r.Failure? ==> e == Some(r.error)
  {
    if r.Failure? then Some(r.error) else None
  }

  /** The exception unpacking group `g` raises, or `None` when it unpacks. */
  function GroupError(res: Results, g: Group): Option<Error> {
    match g
    case EnrolledPerCourse => ErrorOf(RowsOf(res, g, DecodeEnrolled))
    case CourseCompletionRates => ErrorOf(RowsOf(res, g, DecodeCompletion))
    case QuizAttemptsAndSuccess => ErrorOf(RowsOf(res, g, DecodeQuiz))
    case CertificationAchievements => ErrorOf(RowsOf(res, g, DecodeCertification))
    case GradesDistribution => ErrorOf(RowsOf(res, g, DecodeGrade))
    case IssuedBadges => ErrorOf(RowsOf(res, g, DecodeBadge))
    case _ => ErrorOf(ScalarOf(res, g))
  }

  /**
   * The tick stops at the first group, in the order lines 209-245 read
   * them, that does not unpack: the error names that group, whatever the
   * groups after it hold.
   */
  lemma FirstFailureReported(res: Results, g: Group)
    requires GroupError(res, g).Some?
    requires forall h: Group :: Position(h) < Position(g) ==> GroupError(res, h).None?
    ensures Decode(res) == Failure(GroupError(res, g).value)
  {
    // The tick reads the groups in catalog order; each earlier one returned.
    assert Position(ActiveUsers) < Position(g) ==> GroupError(res, ActiveUsers).None?;
    assert Position(OnlineUsers) < Position(g) ==> GroupError(res, OnlineUsers).None?;
    assert Position(AllUsers) < Position(g) ==> GroupError(res, AllUsers).None?;
    assert Position(DbSize) < Position(g) ==> GroupError(res, DbSize).None?;
    assert Position(AvgTimeOnSite) < Position(g) ==> GroupError(res, AvgTimeOnSite).None?;
    assert Position(FailedLogins) < Position(g) ==> GroupError(res, FailedLogins).None?;
    assert Position(AssignmentsSubmitted) < Position(g) ==> GroupError(res, AssignmentsSubmitted).None?;
    assert Position(EnrolledPerCourse) < Position(g) ==> GroupError(res, EnrolledPerCourse).None?;
    assert Position(CourseCompletionRates) < Position(g) ==> GroupError(res, CourseCompletionRates).None?;
    assert Position(QuizAttemptsAndSuccess) < Position(g) ==> GroupError(res, QuizAttemptsAndSuccess).None?;
    assert Position(CertificationAchievements) < Position(g) ==> GroupError(res, CertificationAchievements).None?;
    assert Position(GradesDistribution) < Position(g) ==> GroupError(res, GradesDistribution).None?;
    assert Position(IssuedBadges) < Position(g) ==> GroupError(res, IssuedBadges).None?;
  }

  /**
   * A NULL answer to the first scalar query makes `gauge_active.set` raise:
   * unpacking stops there, whatever the rest of the results hold.
   */
  lemma NullActiveUsersFails(res: Results)
    requires ActiveUsers in res && res[ActiveUsers] == Scalar(Null)
    ensures Decode(res) == Failure(NotNumeric(ActiveUsers))
  {
  }

  /** A row of a row-set group that does not unpack makes the tick fail at that group. */
  lemma BadEnrolmentRowFails(res: Results, i: nat)
    requires forall g :: !IsRowSet(g) ==> ScalarOf(res, g).Success?
    requires EnrolledPerCourse in res && res[EnrolledPerCourse].RowSet?
    requires i < |res[EnrolledPerCourse].rows| && DecodeEnrolled(res[EnrolledPerCourse].rows[i]).None?
    ensures Decode(res) == Failure(BadRow(EnrolledPerCourse))
  {
    assert ScalarOf(res, ActiveUsers).Success? by { assert !IsRowSet(ActiveUsers); }
    assert ScalarOf(res, OnlineUsers).Success? by { assert !IsRowSet(OnlineUsers); }
    assert ScalarOf(res, AllUsers).Success? by { assert !IsRowSet(AllUsers); }
    assert ScalarOf(res, DbSize).Success? by { assert !IsRowSet(DbSize); }
    assert ScalarOf(res, AvgTimeOnSite).Success? by { assert !IsRowSet(AvgTimeOnSite); }
    assert ScalarOf(res, FailedLogins).Success? by { assert !IsRowSet(FailedLogins); }
    assert ScalarOf(res, AssignmentsSubmitted).Success? by { assert !IsRowSet(AssignmentsSubmitted); }
    assert RowsOf(res, EnrolledPerCourse, DecodeEnrolled) == Failure(BadRow(EnrolledPerCourse));
  }
}
