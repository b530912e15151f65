/** GET /api/exercises: the exercise library, filtered by the query string and
    ordered by name. */
module ExercisesApi {
  import opened Common
  import opened Seqs
  import opened Text

  /** A row of the exercise library. */
  datatype Exercise = Exercise(
    id: string,
    name: string,
    category: string,
    primaryMuscleGroups: Option<string>,
    equipment: Option<string>,
    difficulty: Option<string>)

  /** The query string; `None` is a parameter that is not there. */
  datatype Query = Query(
    category: Option<string>,
    difficulty: Option<string>,
    equipment: Option<string>,
    search: Option<string>)

  /** The database filter the handler builds; `None` is a key it leaves out. */
  datatype Where = Where(
    category: Option<string>,
    difficulty: Option<string>,
    equipment: Option<string>,
    nameContains: Option<string>)

  const NoQuery := Query(None, None, None, None)

  /** What the database keeps for `w`: every key present must match, and the
      name match ignores case. */
  predicate Satisfies(w: Where, e: Exercise) {
    && (w.category.Some? ==> e.category == w.category.value)
    && (w.difficulty.Some? ==> e.difficulty == w.difficulty)
    && (w.equipment.Some? ==> e.equipment == w.equipment)
    && (w.nameContains.Some? ==> Contains(ToLower(e.name), ToLower(w.nameContains.value)))
  }

  /** The filter the query asks for: each non-empty parameter is one more
      condition, all of them must hold. */
  ghost predicate Requested(q: Query, e: Exercise) {
    && (Truthy(q.category) ==> e.category == q.category.value)
    && (Truthy(q.difficulty) ==> e.difficulty == q.difficulty)
    && (Truthy(q.equipment) ==> e.equipment == q.equipment)
    && (Truthy(q.search) ==> exists i :: OccursAt(ToLower(e.name), ToLower(q.search.value), i))
  }

  /** Builds the `where` object one conditional key at a time. */
  method BuildWhere(q: Query) returns (w: Where)
    ensures forall e :: Satisfies(w, e) <==> Requested(q, e)
    ensures q == NoQuery ==> w == Where(None, None, None, None)
  {
    w := Where(None, None, None, None);
    if Truthy(q.category) {
      w := w.(category := q.category);
    }
    if Truthy(q.difficulty) {
      w := w.(difficulty := q.difficulty);
    }
    if Truthy(q.equipment) {
      w := w.(equipment := q.equipment);
    }
    if Truthy(q.search) {
      w := w.(nameContains := q.search);
    }
    forall e ensures Satisfies(w, e) <==> Requested(q, e) {
      if Truthy(q.search) {
        ContainsIff(ToLower(e.name), ToLower(q.search.value));
      }
    }
  }

  /** Ascending name order. */
  predicate ByName(a: Exercise, b: Exercise) {
    LexLe(a.name, b.name)
  }

  lemma ByNameTotalPreorder()
    ensures TotalPreorder(ByName)
  {
    LexLeTotalPreorder();
  }

  /** The GET handler over the stored library `table`. */
  method GetExercises(session: Option<string>, q: Query, table: seq<Exercise>)
    returns (resp: Response<seq<Exercise>>)
    ensures !Authenticated(session) <==> resp == Error(401, UnauthorizedMessage)
    ensures Authenticated(session) ==> resp.Ok?
    ensures resp.Ok? ==> forall e :: multiset(resp.body)[e] == if Requested(q, e) then multiset(table)[e] else 0
    ensures resp.Ok? ==> SortedBy(resp.body, ByName)
    ensures resp.Ok? && q == NoQuery ==> multiset(resp.body) == multiset(table)
  {
    if !Authenticated(session) {
      return Error(401, UnauthorizedMessage);
    }
    var w := BuildWhere(q);
    var keep := (e: Exercise) => Satisfies(w, e);
    var rows := Filter(table, keep);
    FilterCounts(table, keep);
    ByNameTotalPreorder();
    SortBySorted(rows, ByName);
    resp := Ok(SortBy(rows, ByName));
    if q == NoQuery {
      assert forall e :: multiset(resp.body)[e] == multiset(table)[e];
    }
  }
}
