/**
 * The Express error handler: how an error object becomes a status and a
 * JSON body. The error's fields are modelled as the handler reads them.
 */
module ErrorMiddleware {
  import opened Common

  /** One entry of a Mongoose `errors` object: the path and its validator message. */
  datatype FieldError = FieldError(path: string, message: string)

  /**
   * The fields of the error the handler reads. `status` and `code` are None
   * when absent; `errors` is None unless it is an object (its entries in
   * insertion order); `keyValue` lists the keys of a duplicate-key error's
   * `keyValue` object in order, or None when it is absent.
   */
  datatype ErrorValue = ErrorValue(
    status: Option<int>,
    message: Option<string>,
    name: string,
    errors: Option<seq<FieldError>>,
    code: Option<int>,
    keyValue: Option<seq<string>>,
    stack: Option<string>)

  /** The JSON body: `success` is always false; `errors` is echoed only by the errors-object branch. */
  datatype ErrorBody = ErrorBody(success: bool, message: string, errors: Option<seq<FieldError>>, stack: Option<string>)

  /** The handler answers, or it throws itself (a TypeError on a missing object), leaving the answer to Express. */
  datatype Handled = Answer(status: int, body: ErrorBody) | HandlerThrows

  /** `err.status || fallback`. */
  function StatusOr(status: Option<int>, fallback: int): (r: int)
    ensures status.Some? && status.value != 0 ==> r == status.value
    ensures status.None? || status.value == 0 ==> r == fallback
  {
    if status.Some? && status.value != 0 then status.value else fallback
  }

  /** `err.message || 'Internal Server Error'`. */
  function MessageOr(message: Option<string>): (r: string)
    ensures Truthy(message) ==> r == message.value
    ensures !Truthy(message) ==> r == "Internal Server Error"
  {
    if Truthy(message) then message.value else "Internal Server Error"
  }

  /** The validator messages of the entries, in order. */
  function Messages(entries: seq<FieldError>): (r: seq<string>)
    ensures |r| == |entries| && forall i :: 0 <= i < |r| ==> r[i] == entries[i].message
  {
    seq(|entries|, i requires 0 <= i < |entries| => entries[i].message)
  }

  /** `parts.join(sep)`. */
  function Join(parts: seq<string>, sep: string): (r: string)
    ensures parts == [] ==> r == ""
    ensures |parts| == 1 ==> r == parts[0]
    decreases |parts|
  {
    if parts == [] then ""
    else if |parts| == 1 then parts[0]
    else Join(parts[..|parts| - 1], sep) + sep + parts[|parts| - 1]
  }

  /** Two parts are joined with one separator between them. */
  lemma JoinTwo(a: string, b: string, sep: string)
    ensures Join([a, b], sep) == a + sep + b
  {
    assert [a, b][..1] == [a];
  }

  /** `toUpperCase` on one character, for the ASCII letters (other characters are kept). */
  function UpperAscii(c: char): (r: char)
    ensures 'a' <= c <= 'z' ==> 'A' <= r <= 'Z' && r as int == c as int - 32
    ensures !('a' <= c <= 'z') ==> r == c
  {
    if 'a' <= c <= 'z' then (c as int - 32) as char else c
  }

  /** `field.charAt(0).toUpperCase() + field.slice(1)`. */
  function Capitalize(field: string): (r: string)
    ensures |r| == |field|
    ensures field != [] ==> r[0] == UpperAscii(field[0]) && r[1..] == field[1..]
  {
    if field == [] then [] else [UpperAscii(field[0])] + field[1..]
  }

  /** The duplicate-key message: the first key of `keyValue`, capitalised, then " already exists". */
  function DuplicateKeyMessage(field: string): (m: string)
    ensures EndsWith(m, " already exists") && |m| == |field| + |" already exists"|
    ensures field != [] ==> m[0] == UpperAscii(field[0]) && m[1..|field|] == field[1..]
  {
    Capitalize(field) + " already exists"
  }

  /** The body for errors answered after the last two checks: no errors echo, and the stack only in development. */
  function Conclude(err: ErrorValue, status: int, message: string, development: bool): (r: Handled)
    ensures err.code == Some(11000) && (err.keyValue.None? || err.keyValue.value == []) <==> r == HandlerThrows
    ensures err.code == Some(11000) && r.Answer? ==>
              r.status == 400 && r.body.message == DuplicateKeyMessage(err.keyValue.value[0])
    ensures err.code != Some(11000) ==> r.Answer? && r.status == status && r.body.message == message
    ensures r.Answer? ==> !r.body.success && r.body.errors.None? && r.body.stack == (if development then err.stack else None)
  {
    var stack := if development then err.stack else None;
    if err.code == Some(11000) then
      if err.keyValue.None? || err.keyValue.value == [] then HandlerThrows
      else Answer(400, ErrorBody(false, DuplicateKeyMessage(err.keyValue.value[0]), None, stack))
    else Answer(status, ErrorBody(false, message, None, stack))
  }

  /** The answer of the errors-object branch. */
  function ValidationEcho(err: ErrorValue): (r: Handled)
    requires err.errors.Some?
    ensures r.Answer? && !r.body.success && r.body.message == "Validation error" && r.body.errors == err.errors
    ensures r.status == StatusOr(err.status, 400) && r.body.stack.None?
  {
    Answer(StatusOr(err.status, 400), ErrorBody(false, "Validation error", err.errors, None))
  }

  /**
   * The handler as written: any error carrying an `errors` object is
   * answered by the first branch, so a Mongoose ValidationError (which always
   * carries one) never reaches the branch that joins its messages; a
   * ValidationError without one makes `Object.values` throw.
   */
  function HandleErrorAsWritten(err: ErrorValue, development: bool): (r: Handled)
    ensures err.errors.Some? ==> r == ValidationEcho(err)
    ensures err.errors.None? && err.name == "ValidationError" ==> r == HandlerThrows
    ensures r.Answer? ==> !r.body.success
  {
    if err.errors.Some? then ValidationEcho(err)
    else if err.name == "ValidationError" then HandlerThrows
    else Conclude(err, StatusOr(err.status, 500), MessageOr(err.message), development)
  }

  /**
   * The handler with the ValidationError branch reachable: the errors-object
   * branch answers every other error, a ValidationError gets 400 with its
   * messages joined by ", ", and a duplicate-key error (checked last) gets
   * 400 with the "already exists" message.
   */
  function HandleError(err: ErrorValue, development: bool): (r: Handled)
    ensures r.Answer? ==> !r.body.success
    ensures err.errors.Some? && err.name != "ValidationError" ==> r == ValidationEcho(err)
    ensures err.errors.Some? && err.name == "ValidationError" && err.code != Some(11000) ==>
              r.Answer? && r.status == 400 && r.body.message == Join(Messages(err.errors.value), ", ") && r.body.errors.None?
    ensures err.errors.None? && err.name == "ValidationError" ==> r == HandlerThrows
    ensures err.errors.None? && err.name != "ValidationError" && err.code != Some(11000) ==>
              r.Answer? && r.status == StatusOr(err.status, 500) && r.body.message == MessageOr(err.message)
              && r.body.stack == (if development then err.stack else None)
    ensures !(err.errors.Some? && err.name != "ValidationError") && err.code == Some(11000) && r.Answer? ==>
              err.keyValue.Some? && |err.keyValue.value| > 0 && r.status == 400 && r.body.message == DuplicateKeyMessage(err.keyValue.value[0])
  {
    if err.errors.Some? && err.name != "ValidationError" then ValidationEcho(err)
    else if err.name == "ValidationError" then
      if err.errors.None? then HandlerThrows
      else Conclude(err, 400, Join(Messages(err.errors.value), ", "), development)
    else Conclude(err, StatusOr(err.status, 500), MessageOr(err.message), development)
  }

  /** The two handlers differ only on a ValidationError that carries its errors object. */
  lemma CorrectionOnlyTouchesValidationErrors(err: ErrorValue, development: bool)
    requires !(err.name == "ValidationError" && err.errors.Some?)
    ensures HandleError(err, development) == HandleErrorAsWritten(err, development)
  {
  }

  /** A required-field ValidationError: answered "Validation error" as written, with its own message once corrected. */
  lemma ValidationMessagesShadowed()
    ensures
      var err := ErrorValue(None, Some("User validation failed: email: Email is required"), "ValidationError",
                            Some([FieldError("email", "Email is required")]), None, None, None);
      && HandleErrorAsWritten(err, false) == Answer(400, ErrorBody(false, "Validation error", err.errors, None))
      && HandleError(err, false) == Answer(400, ErrorBody(false, "Email is required", None, None))
  {
    var entries := [FieldError("email", "Email is required")];
    assert Messages(entries) == ["Email is required"];
  }

  /** The duplicate-key message for a repeated email. */
  lemma EmailAlreadyExists()
    ensures DuplicateKeyMessage("email") == "Email already exists"
  {
    assert UpperAscii('e') == 'E';
    assert Capitalize("email") == "Email" by { assert "email"[1..] == "mail"; }
  }
}
