/** Values shared by every part of the model: optional values, the outcome of a
    client-side check, HTTP-style responses, and the JavaScript truthiness of
    the optional strings and numbers that travel in request bodies. */
module Common {

  /** `None` stands for a JSON `null`, an absent key or an `undefined` field. */
  datatype Option<+T> = None | Some(value: T)

  /** The verdict of a client-side check: the request it lets through, or the
      message shown to the user instead. */
  datatype Outcome<+T> = Accepted(value: T) | Refused(message: string)

  /** A route handler's reply: 200 with a body, 201 with the created record,
      or an error status with the `error` text of the JSON reply. */
  datatype Response<+T> = Ok(body: T) | Created(body: T) | Error(status: int, message: string)

  /** A calendar day. Only equality and order of days are used, so a day is
      kept as an abstract comparable key. */
  type Day = int

  const UnauthorizedMessage := "Unauthorized"
  const MissingFieldsMessage := "Missing required fields"
  const GenericErrorMessage := "Something went wrong"

  /** A string field is truthy in JavaScript: present and not empty. */
  predicate Truthy(v: Option<string>) {
    v.Some? && v.value != ""
  }

  /** A number field is truthy in JavaScript: present and not zero. */
  predicate TruthyNum(v: Option<int>) {
    v.Some? && v.value != 0
  }

  /** `v || null` on a string field: falsy values become null, others stay. */
  function OrNull(v: Option<string>): (r: Option<string>)
    ensures r.Some? <==> Truthy(v)
    ensures r.Some? ==> r == v
  {
    if Truthy(v) then v else None
  }

  /** `v || null` on a number field: falsy values become null, others stay. */
  function NumOrNull(v: Option<int>): (r: Option<int>)
    ensures r.Some? <==> TruthyNum(v)
    ensures r.Some? ==> r == v
  {
    if TruthyNum(v) then v else None
  }

  /** The session check every route handler starts with: `session?.user?.id`
      must be truthy. */
  predicate Authenticated(session: Option<string>) {
    Truthy(session)
  }
}
