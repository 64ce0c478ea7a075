/**
 * The query catalog and `get_metrics`: thirteen named queries, executed in
 * catalog order; six of them keep every row the database returns, the other
 * seven keep column 0 of the first row.  The SQL text is not modelled: what
 * the database does with the i-th query is the input `fetched[i]`, its rows
 * or `None` when executing it raises.
 */
module Catalog {
  import opened Wrappers

  /** One column value as the database driver returns it. */
  datatype Cell = Int(i: int) | Num(r: real) | Text(s: string) | Null

  type Row = seq<Cell>

  /** The metric groups, one per query of the catalog. */
  datatype Group =
    | ActiveUsers | OnlineUsers | AllUsers | DbSize | AvgTimeOnSite
    | FailedLogins | AssignmentsSubmitted | EnrolledPerCourse
    | CourseCompletionRates | QuizAttemptsAndSuccess
    | CertificationAchievements | GradesDistribution | IssuedBadges

  /** What `results[key]` holds: one value, or the full list of rows. */
  datatype GroupResult = Scalar(cell: Cell) | RowSet(rows: seq<Row>)

  type Results = map<Group, GroupResult>

  /** The exceptions a collection tick can raise; any of them ends the exporter. */
  datatype Error =
    | QueryFailed(group: Group)     // `cursor.execute` raised (a missing table, a lost connection)
    | NoRow(group: Group)           // `fetchone()` returned None, so `[0]` fails
    | EmptyRow(group: Group)        // the first row has no column 0
    | MissingGroup(group: Group)    // `metrics[key]` on a key that is absent
    | WrongShape(group: Group)      // a scalar where rows are iterated, or rows where a number is set
    | NotNumeric(group: Group)      // a scalar gauge set to NULL or text
    | BadRow(group: Group)          // a row that does not unpack into the loop's variables

  /** The queries, in the order the `queries` dictionary lists them. */
  const Queries: seq<Group> := [
    ActiveUsers, OnlineUsers, AllUsers, DbSize, AvgTimeOnSite,
    FailedLogins, AssignmentsSubmitted, EnrolledPerCourse,
    CourseCompletionRates, QuizAttemptsAndSuccess,
    CertificationAchievements, GradesDistribution, IssuedBadges
  ]

  /** The groups whose results are kept as full row lists. */
  const RowSetGroups: seq<Group> := [
    EnrolledPerCourse, CourseCompletionRates, QuizAttemptsAndSuccess,
    CertificationAchievements, GradesDistribution, IssuedBadges
  ]

  /** Where a group stands in the catalog: every group has one query. */
  function Position(g: Group): (i: nat)
    ensures i < |Queries| && Queries[i] == g
  {
    match g
    case ActiveUsers => 0
    case OnlineUsers => 1
    case AllUsers => 2
    case DbSize => 3
    case AvgTimeOnSite => 4
    case FailedLogins => 5
    case AssignmentsSubmitted => 6
    case EnrolledPerCourse => 7
    case CourseCompletionRates => 8
    case QuizAttemptsAndSuccess => 9
    case CertificationAchievements => 10
    case GradesDistribution => 11
    case IssuedBadges => 12
  }

  predicate IsRowSet(g: Group) {
    g in RowSetGroups
  }

  /** A scalar query's answer has a first row with a column 0. */
  predicate HasFirstCell(rows: seq<Row>) {
    |rows| > 0 && |rows[0]| > 0
  }

  /**
   * What the database does with one query: `None` when `cursor.execute`
   * raises, otherwise the rows it returns.
   */
  type Answer = Option<seq<Row>>

  /** The query ran, and a scalar query's answer has a first cell. */
  predicate Answered(g: Group, a: Answer) {
    a.Some? && (!IsRowSet(g) ==> HasFirstCell(a.value))
  }

  /** What `results[key]` is set to for the answer of a query that did not fail. */
  function Kept(g: Group, rows: seq<Row>): GroupResult
    requires !IsRowSet(g) ==> HasFirstCell(rows)
  {
    if IsRowSet(g) then RowSet(rows) else Scalar(rows[0][0])
  }

  /** Every query runs and every scalar query's answer has a first cell, so no call raises. */
  predicate AllAnswered(fetched: seq<Answer>)
    requires |fetched| == |Queries|
  {
    forall i :: 0 <= i < |Queries| ==> Answered(Queries[i], fetched[i])
  }

  /** The results dictionary that `get_metrics` returns when no query fails. */
  function Collected(fetched: seq<Answer>): Results
    requires |fetched| == |Queries| && AllAnswered(fetched)
  {
    map g: Group :: Kept(g, fetched[Position(g)].value)
  }

  /**
   * Every group has exactly one query in the catalog; the first seven are
   * scalar groups and the last six row-set groups.
   */
  lemma CatalogShape()
    ensures |Queries| == 13
    ensures forall g: Group :: g in Queries
    ensures forall i, j :: 0 <= i < j < |Queries| ==> Queries[i] != Queries[j]
    ensures forall i :: 0 <= i < |Queries| ==> (IsRowSet(Queries[i]) <==> 7 <= i)
    ensures forall i :: 0 <= i < |Queries| ==> Position(Queries[i]) == i
  {
    forall g: Group ensures g in Queries {
      assert Queries[Position(g)] == g;
    }
  }

  /**
   * One query of `get_metrics`: `cursor.execute`, then `fetchall()` for a
   * row-set group or `fetchone()[0]` for a scalar group.
   */
  method RunQuery(g: Group, a: Answer) returns (r: Result<GroupResult, Error>)
    ensures r.Success? <==> Answered(g, a)
    ensures r.Success? ==> r.value == Kept(g, a.value)
    ensures r.Failure? ==>
      r.error == (if a.None? then QueryFailed(g) else if |a.value| == 0 then NoRow(g) else EmptyRow(g))
  {
    if a.None? {
      return Failure(QueryFailed(g));
    }
    var rows := a.value;
    if IsRowSet(g) {
      r := Success(RowSet(rows));
    } else if |rows| == 0 {
      r := Failure(NoRow(g));
    } else if |rows[0]| == 0 {
      r := Failure(EmptyRow(g));
    } else {
      r := Success(Scalar(rows[0][0]));
    }
  }

  /** The first `i` queries ran and every scalar one among them has a first cell. */
  predicate AnsweredBefore(fetched: seq<Answer>, i: nat)
    requires |fetched| == |Queries| && i <= |Queries|
  {
    forall j :: 0 <= j < i ==> Answered(Queries[j], fetched[j])
  }

  /** The results dictionary after the first `i` queries. */
  function Prefix(fetched: seq<Answer>, i: nat): Results
    requires |fetched| == |Queries| && i <= |Queries| && AnsweredBefore(fetched, i)
  {
    map g: Group | Position(g) < i :: Kept(g, fetched[Position(g)].value)
  }

  /** Running query `i` adds its group, with what it kept, to the dictionary. */
  lemma PrefixStep(fetched: seq<Answer>, i: nat)
    requires |fetched| == |Queries| && i < |Queries|
    requires AnsweredBefore(fetched, i + 1)
    ensures Prefix(fetched, i + 1) == Prefix(fetched, i)[Queries[i] := Kept(Queries[i], fetched[i].value)]
  {
    CatalogShape();
  }

  /** After the last query the dictionary holds every group, each at its position's answer. */
  lemma PrefixComplete(fetched: seq<Answer>)
    requires |fetched| == |Queries| && AllAnswered(fetched)
    ensures AnsweredBefore(fetched, |Queries|)
    ensures Prefix(fetched, |Queries|) == Collected(fetched)
    ensures forall g: Group :: g in Collected(fetched)
    ensures forall i :: 0 <= i < |Queries| ==> Collected(fetched)[Queries[i]] == Kept(Queries[i], fetched[i].value)
  {
    CatalogShape();
  }

  /**
   * `get_metrics`: executes every query in catalog order and fills the results
   * dictionary.  It fails at the first query that raises: `cursor.execute`
   * itself, or, for a scalar query, `fetchone()[0]` on an answer with no first
   * row or no column 0.
   */
  method GetMetrics(fetched: seq<Answer>) returns (r: Result<Results, Error>)
    requires |fetched| == |Queries|
    ensures r.Success? <==> AllAnswered(fetched)
    ensures r.Success? ==> forall g: Group :: g in r.value
    ensures r.Success? ==> forall i :: 0 <= i < |Queries| ==> r.value[Queries[i]] == Kept(Queries[i], fetched[i].value)
    ensures r.Success? ==> r.value == Collected(fetched)
    ensures r.Failure? ==>
      exists i :: 0 <= i < |Queries| && !Answered(Queries[i], fetched[i]) &&
        (forall j :: 0 <= j < i ==> Answered(Queries[j], fetched[j])) &&
        r.error == (if fetched[i].None? then QueryFailed(Queries[i])
                    else if |fetched[i].value| == 0 then NoRow(Queries[i])
                    else EmptyRow(Queries[i]))
  {
    var results: Results := map[];
    for i := 0 to |Queries|
      invariant AnsweredBefore(fetched, i)
      invariant results == Prefix(fetched, i)
    {
      var key := Queries[i];
      var one := RunQuery(key, fetched[i]);
      if one.Failure? {
        return Failure(one.error);
      }
      PrefixStep(fetched, i);
      results := results[key := one.value];
    }
    PrefixComplete(fetched);
    r := Success(results);
  }
}
