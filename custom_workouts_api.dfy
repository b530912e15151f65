/** GET and POST /api/custom-workouts: a user's own workout plans, each an
    ordered list of library exercises with optional sets, reps, time and notes. */
module CustomWorkoutsApi {
  import opened Common
  import opened Seqs
  import opened Ids

  /** One exercise of a POST body. */
  datatype ExerciseInput = ExerciseInput(
    id: string,
    sets: Option<int>,
    reps: Option<int>,
    duration: Option<int>,
    notes: Option<string>)

  /** The JSON body of a POST; an absent exercise list is `None`. */
  datatype CustomWorkoutBody = CustomWorkoutBody(
    name: Option<string>,
    description: Option<string>,
    exercises: Option<seq<ExerciseInput>>)

  /** A stored row linking a plan to a library exercise at a position. */
  datatype WorkoutExercise = WorkoutExercise(
    exerciseId: string,
    sets: Option<int>,
    reps: Option<int>,
    duration: Option<int>,
    order: nat,
    notes: Option<string>)

  /** A stored plan; `createdAt` is the time of its creation. */
  datatype CustomWorkout = CustomWorkout(
    id: string,
    name: string,
    description: Option<string>,
    userId: string,
    createdAt: int,
    exercises: seq<WorkoutExercise>)

  datatype Store = Store(rows: seq<CustomWorkout>, nextId: nat)

  function RowId(w: CustomWorkout): string { w.id }

  ghost predicate Valid(db: Store) {
    IssuedBelow(db.rows, RowId, db.nextId)
  }

  /** The nested rows of a new plan: one per input exercise, in input order,
      with `order` its index and falsy values stored as null. */
  function ExerciseRows(exs: seq<ExerciseInput>): (r: seq<WorkoutExercise>)
    ensures |r| == |exs|
    ensures forall i :: 0 <= i < |r| ==>
      && r[i].order == i
      && r[i].exerciseId == exs[i].id
      && r[i].sets == NumOrNull(exs[i].sets)
      && r[i].reps == NumOrNull(exs[i].reps)
      && r[i].duration == NumOrNull(exs[i].duration)
      && r[i].notes == OrNull(exs[i].notes)
  {
    seq(|exs|, i requires 0 <= i < |exs| =>
      WorkoutExercise(exs[i].id, NumOrNull(exs[i].sets), NumOrNull(exs[i].reps),
        NumOrNull(exs[i].duration), i, OrNull(exs[i].notes)))
  }

  /** Ascending `order`. */
  predicate ByOrder(a: WorkoutExercise, b: WorkoutExercise) {
    a.order <= b.order
  }

  lemma ByOrderTotalPreorder()
    ensures TotalPreorder(ByOrder)
  {
  }

  /** Newest first. */
  predicate ByNewest(a: CustomWorkout, b: CustomWorkout) {
    a.createdAt >= b.createdAt
  }

  lemma ByNewestTotalPreorder()
    ensures TotalPreorder(ByNewest)
  {
  }

  /** A plan as the handlers return it: its exercises ordered by `order`. */
  function Present(w: CustomWorkout): (p: CustomWorkout)
    ensures p.(exercises := w.exercises) == w
    ensures multiset(p.exercises) == multiset(w.exercises)
    ensures SortedBy(p.exercises, ByOrder)
  {
    ByOrderTotalPreorder();
    SortBySorted(w.exercises, ByOrder);
    w.(exercises := SortBy(w.exercises, ByOrder))
  }

  /** The POST handler's validation: a name and at least one exercise. */
  predicate Complete(body: CustomWorkoutBody) {
    Truthy(body.name) && body.exercises.Some? && |body.exercises.value| > 0
  }

  /** The POST handler; `now` is the creation time the database records. */
  function PostCustomWorkout(session: Option<string>, body: CustomWorkoutBody, now: int, db: Store)
    : (r: (Response<CustomWorkout>, Store))
    ensures !Authenticated(session) ==> r == (Error(401, UnauthorizedMessage), db)
    ensures Authenticated(session) && !Complete(body) ==> r == (Error(400, MissingFieldsMessage), db)
    ensures r.0.Created? <==> Authenticated(session) && Complete(body)
    ensures r.0.Created? ==> var w := r.0.body;
      && r.1 == Store(db.rows + [w], db.nextId + 1)
      && w.id == IdFor(db.nextId)
      && w.userId == session.value
      && Some(w.name) == body.name
      && w.description == OrNull(body.description)
      && w.createdAt == now
      && w.exercises == ExerciseRows(body.exercises.value)
  {
    if !Authenticated(session) then (Error(401, UnauthorizedMessage), db)
    else if !Truthy(body.name) || body.exercises.None? || |body.exercises.value| == 0 then
      (Error(400, MissingFieldsMessage), db)
    else
      var w := CustomWorkout(IdFor(db.nextId), body.name.value, OrNull(body.description),
        session.value, now, ExerciseRows(body.exercises.value));
      ExerciseRowsInOrder(body.exercises.value);
      (Created(Present(w)), Store(db.rows + [w], db.nextId + 1))
  }

  /** The rows built from the input list are already in `order`, so the
      ordered read-back returns them as submitted. */
  lemma {:induction false} ExerciseRowsInOrder(exs: seq<ExerciseInput>)
    ensures SortedBy(ExerciseRows(exs), ByOrder)
    ensures SortBy(ExerciseRows(exs), ByOrder) == ExerciseRows(exs)
  {
    SortBySortedIsIdentity(ExerciseRows(exs), ByOrder);
  }

  /** The orders of a created plan are exactly 0, 1, ..., n - 1, and reading it
      back lists the exercise ids in the order they were submitted. */
  lemma PostRoundTrip(session: Option<string>, body: CustomWorkoutBody, now: int, db: Store)
    requires PostCustomWorkout(session, body, now, db).0.Created?
    ensures var w := PostCustomWorkout(session, body, now, db).0.body;
      && |w.exercises| == |body.exercises.value|
      && (forall i :: 0 <= i < |w.exercises| ==> w.exercises[i].order == i)
      && (forall i :: 0 <= i < |w.exercises| ==> w.exercises[i].exerciseId == body.exercises.value[i].id)
      && Present(w) == w
  {
    ExerciseRowsInOrder(body.exercises.value);
  }

  lemma PostKeepsValid(session: Option<string>, body: CustomWorkoutBody, now: int, db: Store)
    requires Valid(db)
    ensures Valid(PostCustomWorkout(session, body, now, db).1)
  {
    var r := PostCustomWorkout(session, body, now, db);
    if r.0.Created? {
      AppendFresh(db.rows, RowId, db.nextId, r.1.rows[|db.rows|]);
      assert r.1.rows == db.rows + [r.1.rows[|db.rows|]];
    }
  }

  function OwnedBy(userId: string): CustomWorkout -> bool {
    (w: CustomWorkout) => w.userId == userId
  }

  lemma OwnRows(rows: seq<CustomWorkout>, userId: string)
    ensures forall x :: x in Filter(rows, OwnedBy(userId)) <==> x in rows && x.userId == userId
  {
    FilterMembers(rows, OwnedBy(userId));
  }

  /** Each plan of `rows` as the handlers return it, in the same order. */
  function PresentAll(rows: seq<CustomWorkout>): (r: seq<CustomWorkout>)
    ensures |r| == |rows|
    ensures forall i :: 0 <= i < |rows| ==> r[i] == Present(rows[i])
    ensures forall w :: w in r <==> exists x :: x in rows && w == Present(x)
  {
    if rows == [] then []
    else [Present(rows[0])] + PresentAll(rows[1..])
  }

  /** The GET handler: the caller's plans, newest first, each with its
      exercises in `order`. */
  function GetCustomWorkouts(session: Option<string>, db: Store): (r: Response<seq<CustomWorkout>>)
    ensures !Authenticated(session) <==> r == Error(401, UnauthorizedMessage)
    ensures Authenticated(session) ==> r.Ok?
    ensures r.Ok? ==> |r.body| == |Filter(db.rows, OwnedBy(session.value))|
    ensures r.Ok? ==> forall w :: w in r.body <==> exists x :: x in db.rows && x.userId == session.value && w == Present(x)
    ensures r.Ok? ==> multiset(r.body) == multiset(PresentAll(Filter(db.rows, OwnedBy(session.value))))
    ensures r.Ok? ==> SortedBy(r.body, ByNewest)
    ensures r.Ok? ==> forall w :: w in r.body ==> SortedBy(w.exercises, ByOrder)
  {
    if !Authenticated(session) then Error(401, UnauthorizedMessage)
    else
      var own := Filter(db.rows, OwnedBy(session.value));
      OwnRows(db.rows, session.value);
      var shown := PresentAll(own);
      ByNewestTotalPreorder();
      SortBySorted(shown, ByNewest);
      SortByMembers(shown, ByNewest);
      Ok(SortBy(shown, ByNewest))
  }
}
