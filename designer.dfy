/** The workout designer page: a filtered view of the exercise library, the
    ordered list of exercises picked for a new plan, and the request that saves
    the plan. */
module Designer {
  import opened Common
  import opened Seqs
  import opened Text
  import opened ExercisesApi
  import CustomWorkoutsApi

  // ---------------------------------------------------------------------------
  // The library filter

  /** The filter the page applies to the library: the lower-cased name
      contains the lower-cased search term, and each non-empty select must
      match exactly. */
  predicate MatchesFilters(searchTerm: string, categoryFilter: string, difficultyFilter: string, e: Exercise) {
    && Contains(ToLower(e.name), ToLower(searchTerm))
    && (categoryFilter == "" || e.category == categoryFilter)
    && (difficultyFilter == "" || e.difficulty == Some(difficultyFilter))
  }

  /** What the filter is meant to keep, with the search stated as an
      occurrence of the term. */
  ghost predicate Shown(searchTerm: string, categoryFilter: string, difficultyFilter: string, e: Exercise) {
    && (exists i :: OccursAt(ToLower(e.name), ToLower(searchTerm), i))
    && (categoryFilter != "" ==> e.category == categoryFilter)
    && (difficultyFilter != "" ==> e.difficulty == Some(difficultyFilter))
  }

  function FilteredExercises(library: seq<Exercise>, searchTerm: string, categoryFilter: string, difficultyFilter: string)
    : (r: seq<Exercise>)
    ensures forall e :: multiset(r)[e] == if Shown(searchTerm, categoryFilter, difficultyFilter, e) then multiset(library)[e] else 0
    ensures IsSubsequence(r, library)
  {
    var keep := (e: Exercise) => MatchesFilters(searchTerm, categoryFilter, difficultyFilter, e);
    assert forall e :: keep(e) <==> Shown(searchTerm, categoryFilter, difficultyFilter, e) by {
      forall e ensures keep(e) <==> Shown(searchTerm, categoryFilter, difficultyFilter, e) {
        ContainsIff(ToLower(e.name), ToLower(searchTerm));
      }
    }
    FilterIsSubsequence(library, keep);
    FilterCounts(library, keep);
    Filter(library, keep)
  }

  /** With every filter empty the whole library is shown, in its order. */
  lemma NoFiltersShowsAll(library: seq<Exercise>)
    ensures FilteredExercises(library, "", "", "") == library
  {
    var keep := (e: Exercise) => MatchesFilters("", "", "", e);
    FilterAll(library, keep);
  }

  // ---------------------------------------------------------------------------
  // The selected exercises

  /** A picked exercise with its planned sets, reps, time and notes; `None`
      is a value that was never set. */
  datatype Selected = Selected(
    exercise: Exercise,
    sets: Option<int>,
    reps: Option<int>,
    duration: Option<int>,
    notes: Option<string>)

  function IdOf(s: Selected): string { s.exercise.id }

  predicate HasId(s: seq<Selected>, id: string) {
    exists i :: 0 <= i < |s| && s[i].exercise.id == id
  }

  /** Picking an exercise: a second pick of the same exercise changes nothing,
      a new one goes last with 3 sets of 10 reps. */
  function Added(s: seq<Selected>, e: Exercise): (r: seq<Selected>)
    ensures HasId(s, e.id) ==> r == s
    ensures !HasId(s, e.id) ==> r == s + [Selected(e, Some(3), Some(10), None, None)]
  {
    if HasId(s, e.id) then s else s + [Selected(e, Some(3), Some(10), None, None)]
  }

  /** After picking, the exercise is in the list, and ids stay unique. */
  lemma AddedKeepsDistinct(s: seq<Selected>, e: Exercise)
    requires DistinctBy(s, IdOf)
    ensures DistinctBy(Added(s, e), IdOf)
    ensures HasId(Added(s, e), e.id)
  {
    var r := Added(s, e);
    if !HasId(s, e.id) {
      assert r[|s|].exercise.id == e.id;
      forall i, j | 0 <= i < |r| && 0 <= j < |r| && i != j ensures IdOf(r[i]) != IdOf(r[j]) {
        if i < |s| && j < |s| {
          assert r[i] == s[i] && r[j] == s[j];
        } else if i < |s| {
          assert r[i] == s[i];
        } else {
          assert r[j] == s[j];
        }
      }
    }
  }

  /** Picking the same exercise twice is picking it once. */
  lemma AddIdempotent(s: seq<Selected>, e: Exercise)
    ensures Added(Added(s, e), e) == Added(s, e)
  {
    var r := Added(s, e);
    if !HasId(s, e.id) {
      assert r[|s|].exercise.id == e.id;
    }
  }

  function NotId(id: string): Selected -> bool {
    (x: Selected) => x.exercise.id != id
  }

  /** Dropping every entry with the given id. */
  function Removed(s: seq<Selected>, id: string): (r: seq<Selected>)
    ensures forall x :: multiset(r)[x] == if IdOf(x) == id then 0 else multiset(s)[x]
    ensures !HasId(r, id)
    ensures IsSubsequence(r, s)
  {
    FilterIsSubsequence(s, NotId(id));
    FilterCounts(s, NotId(id));
    Filter(s, NotId(id))
  }

  /** Removing an id that is not there changes nothing. */
  lemma RemoveAbsent(s: seq<Selected>, id: string)
    requires !HasId(s, id)
    ensures Removed(s, id) == s
  {
    FilterAll(s, NotId(id));
  }

  lemma RemovedKeepsDistinct(s: seq<Selected>, id: string)
    requires DistinctBy(s, IdOf)
    ensures DistinctBy(Removed(s, id), IdOf)
  {
    SubsequenceKeepsDistinct(Removed(s, id), s, IdOf);
  }

  /** A change to one field of an entry; the number inputs pass an integer,
      notes pass text. */
  datatype FieldUpdate = SetSets(n: int) | SetReps(n: int) | SetDuration(n: int) | SetNotes(text: string)

  /** The value a number input hands over: its integer parse, and 0 for text
      that does not start with a number. */
  function NumberInput(text: string): (n: int)
    ensures ParseInt(text).Some? ==> n == ParseInt(text).value
    ensures ParseInt(text).None? ==> n == 0
  {
    var p := ParseInt(text);
    if p.None? || p.value == 0 then 0 else p.value
  }

  /** The entry with exactly one field replaced. */
  function Apply(x: Selected, u: FieldUpdate): (y: Selected)
    ensures y.exercise == x.exercise
    ensures y.sets == if u.SetSets? then Some(u.n) else x.sets
    ensures y.reps == if u.SetReps? then Some(u.n) else x.reps
    ensures y.duration == if u.SetDuration? then Some(u.n) else x.duration
    ensures y.notes == if u.SetNotes? then Some(u.text) else x.notes
  {
    match u
    case SetSets(n) => x.(sets := Some(n))
    case SetReps(n) => x.(reps := Some(n))
    case SetDuration(n) => x.(duration := Some(n))
    case SetNotes(t) => x.(notes := Some(t))
  }

  /** Changing one field of the entries with the given id; everything else
      stays where and as it was. */
  function Updated(s: seq<Selected>, id: string, u: FieldUpdate): (r: seq<Selected>)
    ensures |r| == |s|
    ensures forall i :: 0 <= i < |s| ==> IdOf(r[i]) == IdOf(s[i])
    ensures forall i :: 0 <= i < |s| && IdOf(s[i]) != id ==> r[i] == s[i]
    ensures forall i :: 0 <= i < |s| && IdOf(s[i]) == id ==> r[i] == Apply(s[i], u)
  {
    seq(|s|, i requires 0 <= i < |s| => if s[i].exercise.id == id then Apply(s[i], u) else s[i])
  }

  lemma UpdatedKeepsDistinct(s: seq<Selected>, id: string, u: FieldUpdate)
    requires DistinctBy(s, IdOf)
    ensures DistinctBy(Updated(s, id, u), IdOf)
  {
  }

  /** An update for an id that is not selected changes nothing. */
  lemma UpdateAbsent(s: seq<Selected>, id: string, u: FieldUpdate)
    requires !HasId(s, id)
    ensures Updated(s, id, u) == s
  {
    var r := Updated(s, id, u);
    forall i | 0 <= i < |s| ensures r[i] == s[i] {
      assert s[i].exercise.id != id;
    }
  }

  datatype Direction = Up | Down

  /** The position an entry is swapped with. */
  function Target(index: int, dir: Direction): (t: int)
    ensures dir == Up ==> t == index - 1
    ensures dir == Down ==> t == index + 1
  {
    if dir == Up then index - 1 else index + 1
  }

  /** Moving the entry at `index` one place; the page only offers positions
      of the list. A move past either end changes nothing. */
  function Moved(s: seq<Selected>, index: int, dir: Direction): (r: seq<Selected>)
    requires 0 <= index < |s|
    ensures |r| == |s|
    ensures multiset(r) == multiset(s)
    ensures !(0 <= Target(index, dir) < |s|) ==> r == s
    ensures 0 <= Target(index, dir) < |s| ==>
      && r[index] == s[Target(index, dir)]
      && r[Target(index, dir)] == s[index]
      && forall k :: 0 <= k < |s| && k != index && k != Target(index, dir) ==> r[k] == s[k]
  {
    var t := Target(index, dir);
    if t < 0 || t >= |s| then s
    else
      var r := s[index := s[t]][t := s[index]];
      SwapPermutes(s, index, t);
      r
  }

  lemma SwapPermutes<T>(s: seq<T>, i: int, j: int)
    requires 0 <= i < |s| && 0 <= j < |s|
    ensures multiset(s[i := s[j]][j := s[i]]) == multiset(s)
  {
    var u := s[i := s[j]];
    assert multiset(u) == multiset(s) - multiset{s[i]} + multiset{s[j]};
    assert multiset(u[j := s[i]]) == multiset(u) - multiset{u[j]} + multiset{s[i]};
  }

  /** Moving an entry up and then moving it back down restores the list. */
  lemma MoveUpThenDown(s: seq<Selected>, index: int)
    requires 0 < index < |s|
    ensures Moved(Moved(s, index, Up), index - 1, Down) == s
  {
  }

  /** Moving an entry down and then moving it back up restores the list. */
  lemma MoveDownThenUp(s: seq<Selected>, index: int)
    requires 0 <= index < |s| - 1
    ensures Moved(Moved(s, index, Down), index + 1, Up) == s
  {
  }

  lemma MovedKeepsDistinct(s: seq<Selected>, index: int, dir: Direction)
    requires 0 <= index < |s|
    requires DistinctBy(s, IdOf)
    ensures DistinctBy(Moved(s, index, dir), IdOf)
  {
    var r := Moved(s, index, dir);
    var t := Target(index, dir);
    if 0 <= t < |s| {
      // position i of the result holds position si of the original
      forall i, j | 0 <= i < |r| && 0 <= j < |r| && i != j ensures IdOf(r[i]) != IdOf(r[j]) {
        var si := if i == index then t else if i == t then index else i;
        var sj := if j == index then t else if j == t then index else j;
        assert r[i] == s[si] && r[j] == s[sj];
      }
    }
  }

  // ---------------------------------------------------------------------------
  // Saving

  const NameMissingMessage := "Please enter a workout name"
  const NoExercisesMessage := "Please add at least one exercise"

  /** The exercise list of the request: the selection in its order, falsy
      values sent as null. */
  function Payload(s: seq<Selected>): (r: seq<CustomWorkoutsApi.ExerciseInput>)
    ensures |r| == |s|
    ensures forall i :: 0 <= i < |s| ==>
      && r[i].id == IdOf(s[i])
      && r[i].sets == NumOrNull(s[i].sets)
      && r[i].reps == NumOrNull(s[i].reps)
      && r[i].duration == NumOrNull(s[i].duration)
      && r[i].notes == OrNull(s[i].notes)
  {
    seq(|s|, i requires 0 <= i < |s| =>
      CustomWorkoutsApi.ExerciseInput(s[i].exercise.id, NumOrNull(s[i].sets), NumOrNull(s[i].reps),
        NumOrNull(s[i].duration), OrNull(s[i].notes)))
  }

  /** The save button: refused without a name, then refused without an
      exercise, otherwise the body of the POST to /api/custom-workouts. */
  function SaveRequest(name: string, description: string, s: seq<Selected>)
    : (r: Outcome<CustomWorkoutsApi.CustomWorkoutBody>)
    ensures name == "" ==> r == Refused(NameMissingMessage)
    ensures name != "" && s == [] ==> r == Refused(NoExercisesMessage)
    ensures r.Accepted? <==> name != "" && s != []
    ensures r.Accepted? ==>
      && r.value.name == Some(name)
      && r.value.description == Some(description)
      && r.value.exercises == Some(Payload(s))
  {
    if name == "" then Refused(NameMissingMessage)
    else if |s| == 0 then Refused(NoExercisesMessage)
    else Accepted(CustomWorkoutsApi.CustomWorkoutBody(Some(name), Some(description), Some(Payload(s))))
  }

  /** Every request the page sends passes the handler's checks, and the stored
      plan lists the picked exercises in the order they were arranged, with
      each planned value kept when set and null otherwise. */
  lemma SaveThenPost(name: string, description: string, s: seq<Selected>,
                     session: Option<string>, now: int, db: CustomWorkoutsApi.Store)
    requires SaveRequest(name, description, s).Accepted? && Authenticated(session)
    ensures var body := SaveRequest(name, description, s).value;
      var r := CustomWorkoutsApi.PostCustomWorkout(session, body, now, db);
      && r.0.Created?
      && |r.0.body.exercises| == |s|
      && forall i :: 0 <= i < |s| ==>
        && r.0.body.exercises[i].exerciseId == IdOf(s[i])
        && r.0.body.exercises[i].order == i
        && r.0.body.exercises[i].sets == NumOrNull(s[i].sets)
        && r.0.body.exercises[i].reps == NumOrNull(s[i].reps)
        && r.0.body.exercises[i].duration == NumOrNull(s[i].duration)
        && r.0.body.exercises[i].notes == OrNull(s[i].notes)
  {
    var body := SaveRequest(name, description, s).value;
    CustomWorkoutsApi.PostRoundTrip(session, body, now, db);
    forall i | 0 <= i < |s| ensures NumOrNull(NumOrNull(s[i].sets)) == NumOrNull(s[i].sets)
      && NumOrNull(NumOrNull(s[i].reps)) == NumOrNull(s[i].reps)
      && NumOrNull(NumOrNull(s[i].duration)) == NumOrNull(s[i].duration)
      && OrNull(OrNull(s[i].notes)) == OrNull(s[i].notes)
    {
    }
  }

  // ---------------------------------------------------------------------------
  // The page state

  class DesignerPage {
    var selected: seq<Selected>
    var workoutName: string
    var workoutDescription: string

    constructor()
      ensures selected == [] && workoutName == "" && workoutDescription == ""
    {
      selected := [];
      workoutName := "";
      workoutDescription := "";
    }

    /** No exercise is picked twice. */
    ghost predicate Valid()
      reads this
    {
      DistinctBy(selected, IdOf)
    }

    /** Returns whether the "already added" warning is shown. */
    method AddExercise(e: Exercise) returns (warned: bool)
      requires Valid()
      modifies this
      ensures Valid()
      ensures warned <==> HasId(old(selected), e.id)
      ensures selected == Added(old(selected), e)
      ensures workoutName == old(workoutName) && workoutDescription == old(workoutDescription)
    {
      AddedKeepsDistinct(selected, e);
      if HasId(selected, e.id) {
        return true;
      }
      selected := selected + [Selected(e, Some(3), Some(10), None, None)];
      warned := false;
    }

    method RemoveExercise(id: string)
      requires Valid()
      modifies this
      ensures Valid()
      ensures selected == Removed(old(selected), id)
      ensures workoutName == old(workoutName) && workoutDescription == old(workoutDescription)
    {
      RemovedKeepsDistinct(selected, id);
      selected := Removed(selected, id);
    }

    method UpdateExercise(id: string, u: FieldUpdate)
      requires Valid()
      modifies this
      ensures Valid()
      ensures selected == Updated(old(selected), id, u)
      ensures workoutName == old(workoutName) && workoutDescription == old(workoutDescription)
    {
      UpdatedKeepsDistinct(selected, id, u);
      selected := Updated(selected, id, u);
    }

    /** Copies the list, swaps the two slots in the copy and installs it. */
    method MoveExercise(index: int, dir: Direction)
      requires Valid()
      requires 0 <= index < |selected|
      modifies this
      ensures Valid()
      ensures selected == Moved(old(selected), index, dir)
      ensures workoutName == old(workoutName) && workoutDescription == old(workoutDescription)
    {
      MovedKeepsDistinct(selected, index, dir);
      var copy := new Selected[|selected|];
      forall k | 0 <= k < copy.Length {
        copy[k] := selected[k];
      }
      var t := Target(index, dir);
      if t < 0 || t >= copy.Length {
        return;
      }
      copy[index], copy[t] := copy[t], copy[index];
      assert copy[..] == selected[index := selected[t]][t := selected[index]];
      selected := copy[..];
    }

    /** The save button; `responseOk` is whether the POST succeeded. Returns
        the request, or the refusal shown instead of sending one. */
    method SaveWorkout(responseOk: bool) returns (request: Outcome<CustomWorkoutsApi.CustomWorkoutBody>)
      requires Valid()
      modifies this
      ensures Valid()
      ensures request == SaveRequest(old(workoutName), old(workoutDescription), old(selected))
      ensures request.Accepted? && responseOk ==> selected == [] && workoutName == "" && workoutDescription == ""
      ensures !(request.Accepted? && responseOk) ==>
        selected == old(selected) && workoutName == old(workoutName) && workoutDescription == old(workoutDescription)
    {
      request := SaveRequest(workoutName, workoutDescription, selected);
      if request.Accepted? && responseOk {
        workoutName := "";
        workoutDescription := "";
        selected := [];
      }
    }
  }
}
