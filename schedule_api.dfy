/** GET and POST /api/schedule: the caller's scheduled workouts, optionally
    within a date range, and the creation of a new one. */
module ScheduleApi {
  import opened Common
  import opened Seqs
  import opened Ids

  /** A stored scheduled workout: a day with a workout type or a custom workout. */
  datatype ScheduledWorkout = ScheduledWorkout(
    id: string,
    userId: string,
    scheduledDate: Day,
    workoutTypeId: Option<string>,
    customWorkoutId: Option<string>,
    notes: Option<string>)

  /** The JSON body of a POST; a date that is missing or empty is `None`. */
  datatype ScheduleBody = ScheduleBody(
    scheduledDate: Option<Day>,
    workoutTypeId: Option<string>,
    customWorkoutId: Option<string>,
    notes: Option<string>)

  /** The table of scheduled workouts and the number of the next identifier. */
  datatype Store = Store(rows: seq<ScheduledWorkout>, nextId: nat)

  function RowId(w: ScheduledWorkout): string { w.id }

  ghost predicate Valid(db: Store) {
    IssuedBelow(db.rows, RowId, db.nextId)
  }

  /** The inclusive `gte`/`lte` bounds on the scheduled date. */
  datatype DateRange = DateRange(gte: Day, lte: Day)

  /** The `where` object of the GET handler. */
  datatype ScheduleWhere = ScheduleWhere(userId: string, scheduledDate: Option<DateRange>)

  /** The owner is always a condition; the date range only when both bounds
      are given. */
  function WhereFor(userId: string, startDate: Option<Day>, endDate: Option<Day>): (w: ScheduleWhere)
    ensures w.userId == userId
    ensures w.scheduledDate.Some? <==> startDate.Some? && endDate.Some?
  {
    var w := ScheduleWhere(userId, None);
    if startDate.Some? && endDate.Some? then w.(scheduledDate := Some(DateRange(startDate.value, endDate.value)))
    else w
  }

  predicate Satisfies(w: ScheduleWhere, row: ScheduledWorkout) {
    && row.userId == w.userId
    && (w.scheduledDate.Some? ==> w.scheduledDate.value.gte <= row.scheduledDate <= w.scheduledDate.value.lte)
  }

  /** The rows a GET by `userId` with these bounds asks for. */
  predicate Wanted(userId: string, startDate: Option<Day>, endDate: Option<Day>, row: ScheduledWorkout) {
    && row.userId == userId
    && (startDate.Some? && endDate.Some? ==> startDate.value <= row.scheduledDate <= endDate.value)
  }

  /** Ascending scheduled date. */
  predicate ByDate(a: ScheduledWorkout, b: ScheduledWorkout) {
    a.scheduledDate <= b.scheduledDate
  }

  lemma ByDateTotalPreorder()
    ensures TotalPreorder(ByDate)
  {
  }

  function GetSchedule(session: Option<string>, startDate: Option<Day>, endDate: Option<Day>, db: Store)
    : (r: Response<seq<ScheduledWorkout>>)
    ensures !Authenticated(session) <==> r == Error(401, UnauthorizedMessage)
    ensures Authenticated(session) ==> r.Ok?
    ensures r.Ok? ==> forall row ::
      multiset(r.body)[row] == if Wanted(session.value, startDate, endDate, row) then multiset(db.rows)[row] else 0
    ensures r.Ok? ==> SortedBy(r.body, ByDate)
  {
    if !Authenticated(session) then Error(401, UnauthorizedMessage)
    else
      var w := WhereFor(session.value, startDate, endDate);
      var keep := (row: ScheduledWorkout) => Satisfies(w, row);
      var rows := Filter(db.rows, keep);
      FilterCounts(db.rows, keep);
      ByDateTotalPreorder();
      SortBySorted(rows, ByDate);
      Ok(SortBy(rows, ByDate))
  }

  /** The POST handler's validation: a date, and a workout type or a custom
      workout. */
  predicate Complete(body: ScheduleBody) {
    body.scheduledDate.Some? && (Truthy(body.workoutTypeId) || Truthy(body.customWorkoutId))
  }

  function PostSchedule(session: Option<string>, body: ScheduleBody, db: Store)
    : (r: (Response<ScheduledWorkout>, Store))
    ensures !Authenticated(session) ==> r == (Error(401, UnauthorizedMessage), db)
    ensures Authenticated(session) && !Complete(body) ==> r == (Error(400, MissingFieldsMessage), db)
    ensures r.0.Created? <==> Authenticated(session) && Complete(body)
    ensures r.0.Created? ==> r.1 == Store(db.rows + [r.0.body], db.nextId + 1)
    ensures r.0.Created? ==>
      && r.0.body.id == IdFor(db.nextId)
      && r.0.body.userId == session.value
      && r.0.body.scheduledDate == body.scheduledDate.value
      && r.0.body.workoutTypeId == OrNull(body.workoutTypeId)
      && r.0.body.customWorkoutId == OrNull(body.customWorkoutId)
      && r.0.body.notes == OrNull(body.notes)
    ensures r.0.Created? ==> r.0.body.workoutTypeId.Some? || r.0.body.customWorkoutId.Some?
  {
    if !Authenticated(session) then (Error(401, UnauthorizedMessage), db)
    else if body.scheduledDate.None? || (!Truthy(body.workoutTypeId) && !Truthy(body.customWorkoutId)) then
      (Error(400, MissingFieldsMessage), db)
    else
      var row := ScheduledWorkout(IdFor(db.nextId), session.value, body.scheduledDate.value,
        OrNull(body.workoutTypeId), OrNull(body.customWorkoutId), OrNull(body.notes));
      (Created(row), Store(db.rows + [row], db.nextId + 1))
  }

  /** Creating a scheduled workout keeps identifiers unique. */
  lemma PostKeepsValid(session: Option<string>, body: ScheduleBody, db: Store)
    requires Valid(db)
    ensures Valid(PostSchedule(session, body, db).1)
  {
    var r := PostSchedule(session, body, db);
    if r.0.Created? {
      AppendFresh(db.rows, RowId, db.nextId, r.0.body);
    }
  }

  /** A created entry is listed by its owner's next unbounded GET. */
  lemma PostThenGet(session: Option<string>, body: ScheduleBody, db: Store)
    requires PostSchedule(session, body, db).0.Created?
    ensures var (resp, db') := PostSchedule(session, body, db);
      var listing := GetSchedule(session, None, None, db');
      listing.Ok? && resp.body in listing.body
  {
    var (resp, db') := PostSchedule(session, body, db);
    var listing := GetSchedule(session, None, None, db');
    assert db'.rows[|db.rows|] == resp.body;
    assert multiset(db'.rows)[resp.body] > 0;
    assert multiset(listing.body)[resp.body] > 0;
  }
}
