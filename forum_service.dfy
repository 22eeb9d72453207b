/**
 * The client's `handleError`: turn a failed API call into the error it
 * throws. It never returns normally, so its result is what it throws.
 */
module ForumService {
  import opened Wrappers
  import Strings

  /** The response body: `message`, and optionally `errors`, each error given
      by its values in property order (`Object.values(err)`). */
  datatype ErrorResponse = ErrorResponse(message: Option<string>, errors: Option<seq<seq<string>>>)

  /** The failed call; `response` is absent when no answer came back. */
  datatype ApiError = ApiError(response: Option<ErrorResponse>, description: string)

  /** What `handleError` throws: a new `Error(message)` or the original error. */
  datatype Thrown = Raised(message: string) | Rethrown(error: ApiError)

  /** `errors.map(err => Object.values(err).join(': ')).join(', ')`: no
      errors give the empty text, a single error its values joined by ": ". */
  function ErrorsMessage(errors: seq<seq<string>>): (m: string)
    ensures |errors| == 0 ==> m == ""
    ensures |errors| == 1 ==> m == Strings.Join(errors[0], ": ")
  {
    Strings.Join(seq(|errors|, i requires 0 <= i < |errors| => Strings.Join(errors[i], ": ")), ", ")
  }

  /** Each further error adds ", " and its values joined by ": ". */
  lemma ErrorsMessageSnoc(errors: seq<seq<string>>, last: seq<string>)
    requires |errors| > 0
    ensures ErrorsMessage(errors + [last]) == ErrorsMessage(errors) + ", " + Strings.Join(last, ": ")
  {
    var all := errors + [last];
    var lines := seq(|errors|, i requires 0 <= i < |errors| => Strings.Join(errors[i], ": "));
    var allLines := seq(|all|, i requires 0 <= i < |all| => Strings.Join(all[i], ": "));
    assert allLines == lines + [Strings.Join(last, ": ")];
    Strings.JoinSnoc(lines, Strings.Join(last, ": "), ", ");
  }

  /** The original error is rethrown exactly when no response came back;
      otherwise a new error is raised. */
  function HandleError(error: ApiError): (t: Thrown)
    ensures t.Rethrown? <==> error.response.None?
    ensures t.Rethrown? ==> t.error == error
  {
    match error.response
    case None => Rethrown(error)
    case Some(data) =>
      if data.errors.Some? then Raised(ErrorsMessage(data.errors.value))
      else if data.message.None? || data.message.value == "" then Raised("An error occurred")
      else Raised(data.message.value)
  }

  /** With an `errors` list the message field is never consulted. */
  lemma ErrorsTakePrecedence(errors: seq<seq<string>>, m1: Option<string>, m2: Option<string>, d1: string, d2: string)
    ensures HandleError(ApiError(Some(ErrorResponse(m1, Some(errors))), d1))
         == HandleError(ApiError(Some(ErrorResponse(m2, Some(errors))), d2))
         == Raised(ErrorsMessage(errors))
  {
  }

  /** An empty `errors` array is still truthy: the thrown message is empty. */
  lemma EmptyErrorsEmptyMessage(message: Option<string>, d: string)
    ensures HandleError(ApiError(Some(ErrorResponse(message, Some([]))), d)) == Raised("")
  {
    assert ErrorsMessage([]) == Strings.Join([], ", ");
  }

  /** Without `errors`, a missing or empty message falls back to the default
      and any other message is thrown as it is. */
  lemma MessageOrDefault(message: Option<string>, d: string)
    ensures HandleError(ApiError(Some(ErrorResponse(message, None)), d)) ==
      Raised(if message.None? || message.value == "" then "An error occurred" else message.value)
  {
  }

  lemma JoinPair(x: string, y: string, sep: string)
    ensures Strings.Join([x, y], sep) == x + sep + y
  {
    assert [x, y][1..] == [y];
  }

  /** Two errors of two values each become one line: values joined by ": ",
      errors by ", ". */
  lemma TwoErrorsOneLine(a: string, b: string, c: string, d: string)
    ensures ErrorsMessage([[a, b], [c, d]]) == a + ": " + b + ", " + c + ": " + d
  {
    var errors := [[a, b], [c, d]];
    var lines := seq(|errors|, i requires 0 <= i < |errors| => Strings.Join(errors[i], ": "));
    JoinPair(a, b, ": ");
    JoinPair(c, d, ": ");
    assert lines == [a + ": " + b, c + ": " + d];
    JoinPair(a + ": " + b, c + ": " + d, ", ");
  }
}
