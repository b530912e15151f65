/** The schedule page: the form that schedules a workout on a chosen day, the
    request that marks an entry done or not done, and the entries shown under
    each day of the week. */
module SchedulePage {
  import opened Common
  import opened Seqs
  import ScheduleApi

  /** The form's three fields; an unselected select is "". */
  datatype FormData = FormData(workoutTypeId: string, customWorkoutId: string, notes: string)

  const EmptyForm := FormData("", "", "")

  /** At most one of the two selects has a value. */
  predicate Exclusive(f: FormData) {
    f.workoutTypeId == "" || f.customWorkoutId == ""
  }

  /** The workout-type select: a value clears the custom workout, the empty
      option leaves it as it was. */
  function ChooseWorkoutType(f: FormData, value: string): (r: FormData)
    ensures r.workoutTypeId == value && r.notes == f.notes
    ensures value != "" ==> r.customWorkoutId == ""
    ensures value == "" ==> r.customWorkoutId == f.customWorkoutId
    ensures Exclusive(r)
  {
    f.(workoutTypeId := value, customWorkoutId := if value != "" then "" else f.customWorkoutId)
  }

  /** The custom-workout select: a value clears the workout type, the empty
      option leaves it as it was. */
  function ChooseCustomWorkout(f: FormData, value: string): (r: FormData)
    ensures r.customWorkoutId == value && r.notes == f.notes
    ensures value != "" ==> r.workoutTypeId == ""
    ensures value == "" ==> r.workoutTypeId == f.workoutTypeId
    ensures Exclusive(r)
  {
    f.(customWorkoutId := value, workoutTypeId := if value != "" then "" else f.workoutTypeId)
  }

  /** One edit of the form. */
  datatype Change = TypeChosen(value: string) | CustomChosen(value: string) | NotesTyped(text: string)

  function ApplyChange(f: FormData, c: Change): FormData {
    match c
    case TypeChosen(v) => ChooseWorkoutType(f, v)
    case CustomChosen(v) => ChooseCustomWorkout(f, v)
    case NotesTyped(t) => f.(notes := t)
  }

  function ApplyChanges(f: FormData, cs: seq<Change>): FormData
    decreases |cs|
  {
    if cs == [] then f else ApplyChanges(ApplyChange(f, cs[0]), cs[1..])
  }

  /** No sequence of edits from an exclusive form, the empty one included,
      gives both selects a value. */
  lemma {:induction false} ChangesKeepExclusive(f: FormData, cs: seq<Change>)
    requires Exclusive(f)
    ensures Exclusive(ApplyChanges(f, cs))
    decreases |cs|
  {
    if cs != [] {
      ChangesKeepExclusive(ApplyChange(f, cs[0]), cs[1..]);
    }
  }

  const NothingChosenMessage := "Please select either a workout type or custom workout"

  /** The submit button: refused when neither select has a value, otherwise
      the body of the POST to /api/schedule, with empty fields sent as null. */
  function SubmitRequest(f: FormData, selectedDate: Option<Day>): (r: Outcome<ScheduleApi.ScheduleBody>)
    ensures r.Refused? <==> f.workoutTypeId == "" && f.customWorkoutId == ""
    ensures r.Refused? ==> r.message == NothingChosenMessage
    ensures r.Accepted? ==>
      && r.value.scheduledDate == selectedDate
      && (r.value.workoutTypeId.Some? <==> f.workoutTypeId != "")
      && (r.value.workoutTypeId.Some? ==> r.value.workoutTypeId.value == f.workoutTypeId)
      && (r.value.customWorkoutId.Some? <==> f.customWorkoutId != "")
      && (r.value.customWorkoutId.Some? ==> r.value.customWorkoutId.value == f.customWorkoutId)
      && (r.value.notes.Some? <==> f.notes != "")
      && (r.value.notes.Some? ==> r.value.notes.value == f.notes)
  {
    if f.workoutTypeId == "" && f.customWorkoutId == "" then Refused(NothingChosenMessage)
    else Accepted(ScheduleApi.ScheduleBody(selectedDate, OrNull(Some(f.workoutTypeId)),
      OrNull(Some(f.customWorkoutId)), OrNull(Some(f.notes))))
  }

  /** A request the page sends for a chosen day is accepted by the handler,
      and the stored entry refers to the one workout the form selected. */
  lemma SubmitThenPost(f: FormData, day: Day, session: Option<string>, db: ScheduleApi.Store)
    requires Exclusive(f) && SubmitRequest(f, Some(day)).Accepted? && Authenticated(session)
    ensures var r := ScheduleApi.PostSchedule(session, SubmitRequest(f, Some(day)).value, db);
      && r.0.Created?
      && r.0.body.scheduledDate == day
      && (r.0.body.workoutTypeId.Some? <==> f.workoutTypeId != "")
      && (r.0.body.customWorkoutId.Some? <==> f.customWorkoutId != "")
      && !(r.0.body.workoutTypeId.Some? && r.0.body.customWorkoutId.Some?)
  {
  }

  /** The PATCH the done/not-done button sends. */
  datatype ToggleBody = ToggleBody(url: string, completed: bool)

  function ToggleRequest(id: string, currentStatus: bool): (r: ToggleBody)
    ensures r.completed != currentStatus
    ensures r.url == "/api/schedule/" + id
  {
    ToggleBody("/api/schedule/" + id, !currentStatus)
  }

  /** Pressing the button again, on the status the first press asked for,
      asks for the original status. */
  lemma ToggleTwice(id: string, currentStatus: bool)
    ensures ToggleRequest(id, ToggleRequest(id, currentStatus).completed).completed == currentStatus
  {
  }

  function OnDay(day: Day): ScheduleApi.ScheduledWorkout -> bool {
    (w: ScheduleApi.ScheduledWorkout) => w.scheduledDate == day
  }

  /** The entries shown under a day: those scheduled on it, in list order. */
  function WorkoutsForDate(ws: seq<ScheduleApi.ScheduledWorkout>, day: Day): (r: seq<ScheduleApi.ScheduledWorkout>)
    ensures forall w :: multiset(r)[w] == if w.scheduledDate == day then multiset(ws)[w] else 0
    ensures IsSubsequence(r, ws)
  {
    FilterIsSubsequence(ws, OnDay(day));
    FilterCounts(ws, OnDay(day));
    Filter(ws, OnDay(day))
  }

  /** Each entry is shown under its own day only. */
  lemma ShownUnderOneDay(ws: seq<ScheduleApi.ScheduledWorkout>, w: ScheduleApi.ScheduledWorkout, day: Day)
    requires w in ws
    ensures w in WorkoutsForDate(ws, day) <==> w.scheduledDate == day
  {
    assert w in WorkoutsForDate(ws, day) <==> w in multiset(WorkoutsForDate(ws, day));
  }

  class SchedulePage {
    var form: FormData
    var showForm: bool
    /** The day the form is for; `None` before a day was picked. */
    var selectedDate: Option<Day>

    constructor()
      ensures form == EmptyForm && !showForm && selectedDate == None
    {
      form := EmptyForm;
      showForm := false;
      selectedDate := None;
    }

    ghost predicate Valid()
      reads this
    {
      Exclusive(form)
    }

    method OnWorkoutTypeChange(value: string)
      modifies this
      ensures Valid()
      ensures form == ChooseWorkoutType(old(form), value)
      ensures showForm == old(showForm) && selectedDate == old(selectedDate)
    {
      form := form.(workoutTypeId := value, customWorkoutId := if value != "" then "" else form.customWorkoutId);
    }

    method OnCustomWorkoutChange(value: string)
      modifies this
      ensures Valid()
      ensures form == ChooseCustomWorkout(old(form), value)
      ensures showForm == old(showForm) && selectedDate == old(selectedDate)
    {
      form := form.(customWorkoutId := value, workoutTypeId := if value != "" then "" else form.workoutTypeId);
    }

    method OnNotesChange(text: string)
      requires Valid()
      modifies this
      ensures Valid()
      ensures form == old(form).(notes := text)
      ensures showForm == old(showForm) && selectedDate == old(selectedDate)
    {
      form := form.(notes := text);
    }

    /** The plus button under a day. */
    method OpenForDay(day: Day)
      requires Valid()
      modifies this
      ensures Valid()
      ensures selectedDate == Some(day) && showForm && form == old(form)
    {
      selectedDate := Some(day);
      showForm := true;
    }

    method Cancel()
      requires Valid()
      modifies this
      ensures Valid()
      ensures !showForm && form == old(form) && selectedDate == old(selectedDate)
    {
      showForm := false;
    }

    /** The submit button; `responseOk` is whether the POST succeeded. Returns
        the request, or the refusal shown instead of sending one. */
    method HandleSubmit(responseOk: bool) returns (request: Outcome<ScheduleApi.ScheduleBody>)
      requires Valid()
      modifies this
      ensures Valid()
      ensures request == SubmitRequest(old(form), old(selectedDate))
      ensures request.Accepted? && responseOk ==> form == EmptyForm && !showForm
      ensures !(request.Accepted? && responseOk) ==> form == old(form) && showForm == old(showForm)
      ensures selectedDate == old(selectedDate)
    {
      if form.workoutTypeId == "" && form.customWorkoutId == "" {
        return Refused(NothingChosenMessage);
      }
      request := Accepted(ScheduleApi.ScheduleBody(selectedDate, OrNull(Some(form.workoutTypeId)),
        OrNull(Some(form.customWorkoutId)), OrNull(Some(form.notes))));
      if responseOk {
        showForm := false;
        form := EmptyForm;
      }
    }
  }
}
