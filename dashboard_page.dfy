/** The dashboard page: the form that logs a new workout or edits a logged
    one, and the log table's notes column. */
module DashboardPage {
  import opened Common
  import opened Text
  import WorkoutsApi

  /** The form's fields, all text as the inputs hold them, and the day. */
  datatype WorkoutForm = WorkoutForm(exercise: string, duration: string, calories: string, notes: string, date: Day)

  /** The empty form, dated today. */
  function BlankForm(today: Day): WorkoutForm {
    WorkoutForm("", "", "", "", today)
  }

  /** The request the form sends: its fields as the JSON body. */
  datatype Request = Request(verb: string, url: string, body: WorkoutsApi.WorkoutBody)

  function FormBody(f: WorkoutForm): WorkoutsApi.WorkoutBody {
    WorkoutsApi.WorkoutBody(Some(f.exercise), Some(f.duration), Some(f.calories), Some(f.notes), Some(f.date))
  }

  /** With an entry being edited the form updates it with PUT at its address;
      otherwise it creates one with POST. */
  function SubmitTarget(editingId: Option<string>, f: WorkoutForm): (r: Request)
    ensures Truthy(editingId) ==> r.verb == "PUT" && r.url == "/api/workouts/" + editingId.value
    ensures !Truthy(editingId) ==> r.verb == "POST" && r.url == "/api/workouts"
    ensures r.body == FormBody(f)
  {
    if Truthy(editingId) then Request("PUT", "/api/workouts/" + editingId.value, FormBody(f))
    else Request("POST", "/api/workouts", FormBody(f))
  }

  /** The form filled in from a logged workout: numbers as decimal text, a
      missing note as "". */
  function EditForm(w: WorkoutsApi.Workout): (f: WorkoutForm)
    ensures f.exercise == w.exercise && f.date == w.date
    ensures f.duration == IntToString(w.duration) && f.calories == IntToString(w.calories)
    ensures Truthy(w.notes) ==> f.notes == w.notes.value
    ensures !Truthy(w.notes) ==> f.notes == ""
  {
    WorkoutForm(w.exercise, IntToString(w.duration), IntToString(w.calories),
      if Truthy(w.notes) then w.notes.value else "", w.date)
  }

  /** Saving the filled-in form unchanged as a new entry stores the same
      exercise, numbers, note and day: the pre-fill loses nothing. */
  lemma EditFormRoundTrip(w: WorkoutsApi.Workout, session: Option<string>, db: WorkoutsApi.Store)
    requires Authenticated(session) && w.exercise != ""
    ensures var r := WorkoutsApi.PostWorkout(session, FormBody(EditForm(w)), db);
      && r.0.Created?
      && r.0.body.exercise == w.exercise
      && r.0.body.duration == w.duration
      && r.0.body.calories == w.calories
      && r.0.body.notes == OrNull(w.notes)
      && r.0.body.date == w.date
  {
    ParseIntToString(w.duration);
    ParseIntToString(w.calories);
  }

  /** The notes column: "-" for a missing or empty note, a note over 50
      characters cut to its first 50 and "...", a shorter one as it is. */
  function NotesDisplay(notes: Option<string>): (r: string)
    ensures !Truthy(notes) ==> r == "-"
    ensures Truthy(notes) && |notes.value| > 50 ==> r == notes.value[..50] + "..."
    ensures Truthy(notes) && |notes.value| <= 50 ==> r == notes.value
    ensures |r| <= 53
  {
    if !Truthy(notes) then "-"
    else if |notes.value| > 50 then notes.value[..50] + "..."
    else notes.value
  }

  /** A shown note begins with the note itself as far as it is shown. */
  lemma NotesDisplayPrefix(notes: Option<string>)
    requires Truthy(notes)
    ensures var r := NotesDisplay(notes); var k := if |notes.value| < 50 then |notes.value| else 50;
      k <= |r| && r[..k] == notes.value[..k]
  {
  }

  class DashboardPage {
    /** The entry being edited; `None` while a new one is being added. */
    var editingId: Option<string>
    var form: WorkoutForm
    var showForm: bool

    constructor(today: Day)
      ensures editingId == None && form == BlankForm(today) && !showForm
    {
      editingId := None;
      form := BlankForm(today);
      showForm := false;
    }

    /** The save button; `responseOk` is whether the request succeeded and
        `today` the day the reset form is dated. */
    method HandleSubmit(responseOk: bool, today: Day) returns (request: Request)
      modifies this
      ensures request == SubmitTarget(old(editingId), old(form))
      ensures responseOk ==> editingId == None && !showForm && form == BlankForm(today)
      ensures !responseOk ==> editingId == old(editingId) && showForm == old(showForm) && form == old(form)
    {
      if Truthy(editingId) {
        request := Request("PUT", "/api/workouts/" + editingId.value, FormBody(form));
      } else {
        request := Request("POST", "/api/workouts", FormBody(form));
      }
      if responseOk {
        showForm := false;
        editingId := None;
        form := WorkoutForm("", "", "", "", today);
      }
    }

    /** The edit button of a logged workout. */
    method HandleEdit(w: WorkoutsApi.Workout)
      modifies this
      ensures editingId == Some(w.id) && form == EditForm(w) && showForm
    {
      editingId := Some(w.id);
      form := WorkoutForm(w.exercise, IntToString(w.duration), IntToString(w.calories),
        if Truthy(w.notes) then w.notes.value else "", w.date);
      showForm := true;
    }

    /** The "Add New Workout" button: shows or hides the form, and either way
        leaves edit mode with an empty form, so the next save is a POST. */
    method AddNew(today: Day)
      modifies this
      ensures showForm == !old(showForm) && editingId == None && form == BlankForm(today)
      ensures SubmitTarget(editingId, form).verb == "POST"
    {
      showForm := !showForm;
      editingId := None;
      form := BlankForm(today);
    }

    /** The form's cancel button; the fields keep what was typed. */
    method Cancel()
      modifies this
      ensures !showForm && editingId == None && form == old(form)
    {
      showForm := false;
      editingId := None;
    }
  }
}
