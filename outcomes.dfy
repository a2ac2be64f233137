/** Values shared by every part of the service: an optional value (a request
    field that may be absent) and the outcome of a route, which is either a
    value or one of the four failures the service reports. */
module Outcomes {

  /** A request field or a lookup that may have nothing in it. */
  datatype Option<+T> = None | Some(value: T)

  /** The failures a route can answer with. */
  datatype Failure =
    | MissingFields   // registration without a name or a username
    | UsernameTaken   // registration with a username already in use
    | UserNotFound    // the identification header names no user
    | TodoNotFound    // the todo id is not in the acting user's list

  /** The HTTP status that goes with each failure. */
  function Status(f: Failure): (code: nat)
    ensures 400 <= code < 500
    ensures code == 404 <==> f == UserNotFound || f == TodoNotFound
  {
    match f
    case MissingFields => 403
    case UsernameTaken => 400
    case UserNotFound => 404
    case TodoNotFound => 404
  }

  /** The error text of the JSON body that goes with each failure. */
  function Message(f: Failure): (text: string)
    ensures |text| > 0
  {
    match f
    case MissingFields => "Client did not provide a name and/or username!"
    case UsernameTaken => "Client username already registered in database!"
    case UserNotFound => "User not found!"
    case TodoNotFound => "Todo not found!"
  }

  /** A client can tell any two failures apart by status or by error text. */
  lemma FailuresDistinguishable(f: Failure, g: Failure)
    requires f != g
    ensures Status(f) != Status(g) || Message(f) != Message(g)
  {
    if Status(f) == Status(g) {
      assert {f, g} == {UserNotFound, TodoNotFound};
      assert Message(UserNotFound)[0] == 'U' && Message(TodoNotFound)[0] == 'T';
    }
  }

  /** What a route answers: the value it sends back, or a failure. */
  datatype Result<+T> = Ok(value: T) | Err(error: Failure)

  /** A request field counts as given when it is present and not the empty
      string (the only falsy string). */
  predicate Given(field: Option<string>)
  {
    field.Some? && field.value != ""
  }
}
