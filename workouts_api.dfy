/** GET and POST /api/workouts: the caller's workout log. */
module WorkoutsApi {
  import opened Common
  import opened Seqs
  import opened Text
  import opened Ids

  /** The JSON body of a POST as the dashboard form sends it: every field is
      text, and a date that is missing or empty is `None`. */
  datatype WorkoutBody = WorkoutBody(
    exercise: Option<string>,
    duration: Option<string>,
    calories: Option<string>,
    notes: Option<string>,
    date: Option<Day>)

  /** A stored log entry. */
  datatype Workout = Workout(
    id: string,
    userId: string,
    exercise: string,
    duration: int,
    calories: int,
    notes: Option<string>,
    date: Day)

  datatype Store = Store(rows: seq<Workout>, nextId: nat)

  function RowId(w: Workout): string { w.id }

  ghost predicate Valid(db: Store) {
    IssuedBelow(db.rows, RowId, db.nextId)
  }

  /** The POST handler's validation: exercise, duration, calories and date. */
  predicate Complete(body: WorkoutBody) {
    Truthy(body.exercise) && Truthy(body.duration) && Truthy(body.calories) && body.date.Some?
  }

  /** The POST handler. Duration and calories are stored as the integer
      parse of the submitted text; text without a leading number parses to
      `NaN`, which the integer columns refuse, so the handler answers 500 and
      nothing is stored. */
  function PostWorkout(session: Option<string>, body: WorkoutBody, db: Store)
    : (r: (Response<Workout>, Store))
    ensures !Authenticated(session) ==> r == (Error(401, UnauthorizedMessage), db)
    ensures Authenticated(session) && !Complete(body) ==> r == (Error(400, MissingFieldsMessage), db)
    ensures r.0.Created? <==>
      && Authenticated(session) && Complete(body)
      && ParseInt(body.duration.value).Some? && ParseInt(body.calories.value).Some?
    ensures !r.0.Created? ==> r.1 == db
    ensures r.0.Created? ==> var w := r.0.body;
      && r.1 == Store(db.rows + [w], db.nextId + 1)
      && w.id == IdFor(db.nextId)
      && w.userId == session.value
      && Some(w.exercise) == body.exercise
      && Some(w.duration) == ParseInt(body.duration.value)
      && Some(w.calories) == ParseInt(body.calories.value)
      && w.notes == OrNull(body.notes)
      && w.date == body.date.value
  {
    if !Authenticated(session) then (Error(401, UnauthorizedMessage), db)
    else if !Truthy(body.exercise) || !Truthy(body.duration) || !Truthy(body.calories) || body.date.None? then
      (Error(400, MissingFieldsMessage), db)
    else
      var duration := ParseInt(body.duration.value);
      var calories := ParseInt(body.calories.value);
      if duration.None? || calories.None? then (Error(500, GenericErrorMessage), db)
      else
        var w := Workout(IdFor(db.nextId), session.value, body.exercise.value,
          duration.value, calories.value, OrNull(body.notes), body.date.value);
        (Created(w), Store(db.rows + [w], db.nextId + 1))
  }

  lemma PostKeepsValid(session: Option<string>, body: WorkoutBody, db: Store)
    requires Valid(db)
    ensures Valid(PostWorkout(session, body, db).1)
  {
    var r := PostWorkout(session, body, db);
    if r.0.Created? {
      AppendFresh(db.rows, RowId, db.nextId, r.0.body);
    }
  }

  /** Numbers written out in decimal are stored as those numbers. */
  lemma PostStoresNumbers(session: Option<string>, exercise: string, duration: int, calories: int,
                          notes: Option<string>, date: Day, db: Store)
    requires Authenticated(session) && exercise != ""
    ensures var body := WorkoutBody(Some(exercise), Some(IntToString(duration)), Some(IntToString(calories)), notes, Some(date));
      var r := PostWorkout(session, body, db);
      r.0.Created? && r.0.body.duration == duration && r.0.body.calories == calories
  {
    ParseIntToString(duration);
    ParseIntToString(calories);
  }

  /** Latest date first. */
  predicate ByLatest(a: Workout, b: Workout) {
    a.date >= b.date
  }

  lemma ByLatestTotalPreorder()
    ensures TotalPreorder(ByLatest)
  {
  }

  /** The GET handler: the caller's entries and no one else's, latest first. */
  function GetWorkouts(session: Option<string>, db: Store): (r: Response<seq<Workout>>)
    ensures !Authenticated(session) <==> r == Error(401, UnauthorizedMessage)
    ensures Authenticated(session) ==> r.Ok?
    ensures r.Ok? ==> forall w ::
      multiset(r.body)[w] == if w.userId == session.value then multiset(db.rows)[w] else 0
    ensures r.Ok? ==> SortedBy(r.body, ByLatest)
  {
    if !Authenticated(session) then Error(401, UnauthorizedMessage)
    else
      var mine := (w: Workout) => w.userId == session.value;
      var own := Filter(db.rows, mine);
      FilterCounts(db.rows, mine);
      ByLatestTotalPreorder();
      SortBySorted(own, ByLatest);
      Ok(SortBy(own, ByLatest))
  }
}
