/** The registration page: the checks made before the account request is
    sent, and the error shown when it fails. */
module RegisterPage {
  import opened Common

  datatype RegisterForm = RegisterForm(username: string, email: string, password: string, confirmPassword: string)

  /** The body of the POST to /api/register. */
  datatype RegisterBody = RegisterBody(username: string, email: string, password: string)

  const MismatchMessage := "Passwords do not match"
  const TooShortMessage := "Password must be at least 6 characters"
  const MinPasswordLength := 6

  /** The checks in the order the page makes them: the confirmation must match
      first, then the password must be long enough. */
  function Validate(f: RegisterForm): (r: Outcome<RegisterBody>)
    ensures f.password != f.confirmPassword ==> r == Refused(MismatchMessage)
    ensures f.password == f.confirmPassword && |f.password| < MinPasswordLength ==> r == Refused(TooShortMessage)
    ensures r.Accepted? <==> f.password == f.confirmPassword && |f.password| >= MinPasswordLength
    ensures r.Accepted? ==> r.value == RegisterBody(f.username, f.email, f.password)
  {
    if f.password != f.confirmPassword then Refused(MismatchMessage)
    else if |f.password| < MinPasswordLength then Refused(TooShortMessage)
    else Accepted(RegisterBody(f.username, f.email, f.password))
  }

  /** A short password with a wrong confirmation is reported as a mismatch. */
  lemma MismatchFirst(f: RegisterForm)
    requires f.password != f.confirmPassword && |f.password| < MinPasswordLength
    ensures Validate(f).message == MismatchMessage
  {
  }

  /** What the request came back with: a success, a refusal whose JSON body
      may carry an `error` field, or no readable answer at all. */
  datatype Reply = Success | Failure(error: Option<string>) | Unreadable

  /** The error shown for a reply that is not a success. */
  function ErrorShown(reply: Reply): (message: string)
    requires !reply.Success?
    ensures message != ""
    ensures reply.Failure? && Truthy(reply.error) ==> message == reply.error.value
    ensures !(reply.Failure? && Truthy(reply.error)) ==> message == GenericErrorMessage
  {
    if reply.Failure? && Truthy(reply.error) then reply.error.value else GenericErrorMessage
  }

  class RegisterPage {
    /** The error line; "" shows none. */
    var error: string
    var loading: bool
    /** Whether the page went on to the login page. */
    var navigated: bool

    constructor()
      ensures error == "" && !loading && !navigated
    {
      error := "";
      loading := false;
      navigated := false;
    }

    /** The register button; `reply` is what the request came back with.
        Returns the request, or the refusal shown instead of sending one. */
    method HandleSubmit(form: RegisterForm, reply: Reply) returns (request: Outcome<RegisterBody>)
      modifies this
      ensures request == Validate(form)
      ensures request.Refused? ==> error == request.message && loading == old(loading) && navigated == old(navigated)
      ensures request.Accepted? && reply.Success? ==> error == "" && !loading && navigated
      ensures request.Accepted? && !reply.Success? ==> error == ErrorShown(reply) && !loading && navigated == old(navigated)
    {
      error := "";
      if form.password != form.confirmPassword {
        error := MismatchMessage;
        return Refused(MismatchMessage);
      }
      if |form.password| < MinPasswordLength {
        error := TooShortMessage;
        return Refused(TooShortMessage);
      }
      loading := true;
      request := Accepted(RegisterBody(form.username, form.email, form.password));
      if reply.Success? {
        navigated := true;
      } else if reply.Failure? && Truthy(reply.error) {
        error := reply.error.value;
      } else {
        error := GenericErrorMessage;
      }
      loading := false;
    }
  }
}
