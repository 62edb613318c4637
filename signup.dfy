/** The signup Lambda: input validation of a request body and the dispatch from a request to its
    status code. The database is not modelled: the emails that already have a user record and
    whether a database call fails are supplied with the request. */
module Signup {
  import opened Common
  import opened Text
  import opened Json

  const MaxDisplayName: nat := 100

  /** The five things `validate_input` can report about a field. */
  datatype Problem = Required | NotAString | Blank | BadEmailFormat | TooLong

  /** The message the source stores for a problem of a field. */
  function Message(field: string, p: Problem): string {
    match p
    case Required => field + " is required"
    case NotAString => field + " must be a string"
    case Blank => field + " cannot be empty"
    case BadEmailFormat => "Invalid email format"
    case TooLong => "Display name cannot exceed 100 characters"
  }

  /** The per-field check of the `required_fields` loop: missing or falsy, not a string, or
      blank after stripping, in that order. */
  function RequiredError(body: map<string, Value>, field: string): Option<Problem> {
    if !Truthy(Get(body, field)) then Some(Required)
    else if !body[field].JStr? then Some(NotAString)
    else if |PyStrip(body[field].s)| == 0 then Some(Blank)
    else None
  }

  /** Each required-field problem, stated by what the field holds: `Required` for a missing or
      falsy value (the empty string included), `NotAString` for any other non-string, `Blank` for
      a non-empty string of whitespace, and no problem exactly for a string that is not blank. */
  lemma RequiredErrorCases(body: map<string, Value>, field: string)
    ensures RequiredError(body, field) == Some(Required) <==> !Truthy(Get(body, field))
    ensures RequiredError(body, field) == Some(NotAString) <==> Truthy(Get(body, field)) && !body[field].JStr?
    ensures RequiredError(body, field) == Some(Blank) <==>
      field in body && body[field].JStr? && body[field].s != "" && PyStrip(body[field].s) == ""
    ensures RequiredError(body, field).None? <==>
      field in body && body[field].JStr? && PyStrip(body[field].s) != ""
  {
    if field in body && body[field].JStr? {
      var s := body[field].s;
      assert |PyStrip(s)| <= |s|;
    }
  }

  /** The problem recorded for `email`: its required-field problem, or else the format problem
      when the stripped address lacks an '@' or a '.'. */
  function EmailError(body: map<string, Value>): Option<Problem> {
    match RequiredError(body, "email")
    case Some(p) => Some(p)
    case None =>
      var e := PyStrip(body["email"].s);
      if !Contains(e, "@") || !Contains(e, ".") then Some(BadEmailFormat) else None
  }

  /** The problem recorded for `display_name`: its required-field problem, or else the length
      problem when the stripped name exceeds 100 characters. */
  function DisplayNameError(body: map<string, Value>): Option<Problem> {
    match RequiredError(body, "display_name")
    case Some(p) => Some(p)
    case None =>
      if |PyStrip(body["display_name"].s)| > MaxDisplayName then Some(TooLong) else None
  }

  /** The dictionary holding an email problem and a display name problem, where there are any. */
  function ErrorsOf(e: Option<Problem>, d: Option<Problem>): (errors: map<string, Problem>)
    ensures errors.Keys <= {"email", "display_name"}
    ensures "email" in errors <==> e.Some?
    ensures "display_name" in errors <==> d.Some?
  {
    match (e, d)
    case (None, None) => map[]
    case (Some(p), None) => map["email" := p]
    case (None, Some(q)) => map["display_name" := q]
    case (Some(p), Some(q)) => map["email" := p, "display_name" := q]
  }

  /** The error dictionary `validate_input` returns, with each message given by its problem. */
  function InputErrors(body: map<string, Value>): (errors: map<string, Problem>)
    ensures errors.Keys <= {"email", "display_name"}
    ensures "email" in errors <==> EmailError(body).Some?
    ensures "display_name" in errors <==> DisplayNameError(body).Some?
  {
    ErrorsOf(EmailError(body), DisplayNameError(body))
  }

  /** `validate_input`: the loop over the required fields, then the email format check and the
      display name length check for the fields that have no error yet. */
  method ValidateInput(body: map<string, Value>) returns (errors: map<string, Problem>)
    ensures errors == InputErrors(body)
  {
    var required := ["email", "display_name"];
    errors := map[];
    for k := 0 to |required|
      invariant forall f | f in errors :: f in required[..k] && RequiredError(body, f) == Some(errors[f])
      invariant forall f | f in required[..k] && RequiredError(body, f).Some? :: f in errors
    {
      var field := required[k];
      if !Truthy(Get(body, field)) {
        errors := errors[field := Required];
      } else if !body[field].JStr? {
        errors := errors[field := NotAString];
      } else if |PyStrip(body[field].s)| == 0 {
        errors := errors[field := Blank];
      }
    }
    assert required[..|required|] == required;
    assert errors.Keys <= {"email", "display_name"};
    ghost var base := errors;
    if "email" !in errors {
      var email := PyStrip(body["email"].s);
      if !Contains(email, "@") || !Contains(email, ".") {
        errors := errors["email" := BadEmailFormat];
      }
    }
    assert "email" in errors <==> EmailError(body).Some?;
    assert "email" in errors ==> errors["email"] == EmailError(body).value;
    if "display_name" !in errors {
      var displayName := PyStrip(body["display_name"].s);
      if |displayName| > MaxDisplayName {
        errors := errors["display_name" := TooLong];
      }
    }
    assert "display_name" in errors <==> DisplayNameError(body).Some?;
    assert "display_name" in errors ==> errors["display_name"] == DisplayNameError(body).value;
    InputErrorsByKeys(body, errors);
  }

  /** A dictionary over the two field names that holds each field's problem is the error
      dictionary. */
  lemma InputErrorsByKeys(body: map<string, Value>, m: map<string, Problem>)
    requires m.Keys <= {"email", "display_name"}
    requires "email" in m <==> EmailError(body).Some?
    requires "email" in m ==> m["email"] == EmailError(body).value
    requires "display_name" in m <==> DisplayNameError(body).Some?
    requires "display_name" in m ==> m["display_name"] == DisplayNameError(body).value
    ensures m == InputErrors(body)
  {
    ErrorsOfByKeys(EmailError(body), DisplayNameError(body), m);
  }

  lemma ErrorsOfByKeys(e: Option<Problem>, d: Option<Problem>, m: map<string, Problem>)
    requires m.Keys <= {"email", "display_name"}
    requires "email" in m <==> e.Some?
    requires "email" in m ==> m["email"] == e.value
    requires "display_name" in m <==> d.Some?
    requires "display_name" in m ==> m["display_name"] == d.value
    ensures m == ErrorsOf(e, d)
  {
    var errors := ErrorsOf(e, d);
    assert m.Keys == errors.Keys;
    forall k | k in m ensures m[k] == errors[k] {
      assert k == "email" || k == "display_name";
    }
  }

  /** A body every check accepts, stated directly: both fields are strings whose stripped forms
      are non-empty, the address contains '@' and '.', and the name has at most 100 characters. */
  predicate Acceptable(body: map<string, Value>) {
    && "email" in body && body["email"].JStr?
    && "display_name" in body && body["display_name"].JStr?
    && var e := PyStrip(body["email"].s);
       var d := PyStrip(body["display_name"].s);
       e != "" && Contains(e, "@") && Contains(e, ".") && d != "" && |d| <= MaxDisplayName
  }

  /** The error dictionary is empty exactly when the body is acceptable; the email key never
      reports a length problem and the display name key never a format problem. */
  lemma InputErrorsEmptyIff(body: map<string, Value>)
    ensures InputErrors(body) == map[] <==> Acceptable(body)
    ensures "email" in InputErrors(body) ==> InputErrors(body)["email"] != TooLong
    ensures "display_name" in InputErrors(body) ==> InputErrors(body)["display_name"] != BadEmailFormat
  {
    var errors := InputErrors(body);
    if errors == map[] {
      assert "email" !in errors && "display_name" !in errors;
    }
    assert errors == map[] <==> EmailError(body).None? && DisplayNameError(body).None?;
    AcceptableIff(body);
  }

  /** A body is acceptable exactly when neither field has a problem. */
  lemma AcceptableIff(body: map<string, Value>)
    ensures Acceptable(body) <==> EmailError(body).None? && DisplayNameError(body).None?
  {
    RequiredErrorCases(body, "email");
    RequiredErrorCases(body, "display_name");
  }

  /** A display name of exactly 100 characters passes; one more character is an error. */
  lemma DisplayNameBoundary(body: map<string, Value>)
    requires "display_name" in body && body["display_name"].JStr?
    requires PyStrip(body["display_name"].s) != ""
    ensures DisplayNameError(body).None? <==> |PyStrip(body["display_name"].s)| <= 100
    ensures DisplayNameError(body) == Some(TooLong) <==> |PyStrip(body["display_name"].s)| > 100
  {
  }

  /** The email format check runs only when the email has no earlier problem. */
  lemma FormatCheckOnlyAfterRequired(body: map<string, Value>)
    ensures EmailError(body) == Some(BadEmailFormat) <==>
      RequiredError(body, "email").None? && var e := PyStrip(body["email"].s); !(Contains(e, "@") && Contains(e, "."))
  {
  }

  // ---------------------------------------------------------------------------------------------
  // The handler

  /** What the handler can see of the database. */
  datatype Db = Db(existing: set<string>, lookupFails: bool, insertFails: bool)

  /** The handler's outcomes; the response headers and the user and event records returned by the
      inserts are not modelled. */
  datatype Outcome =
    | InvalidJson
    | ValidationFailed(details: map<string, Problem>)
    | AlreadyExists(email: string)
    | Created(email: string, displayName: string)
    | InternalError

  function StatusCode(o: Outcome): int {
    match o
    case InvalidJson => 400
    case ValidationFailed(_) => 400
    case AlreadyExists(_) => 409
    case Created(_, _) => 200
    case InternalError => 500
  }

  /** `handler`: parse, validate, normalise, look the email up, insert. A body that is not a dict
      raises inside the handler and ends in the catch-all 500. */
  function Handle(body: Option<Value>, loads: string -> Option<Value>, db: Db): (o: Outcome)
    ensures LoadBody(body, loads).None? ==> o == InvalidJson
    ensures LoadBody(body, loads).Some? && !LoadBody(body, loads).value.JObj? ==> o == InternalError
  {
    match LoadBody(body, loads)
    case None => InvalidJson
    case Some(parsed) =>
      if !parsed.JObj? then InternalError else HandleFields(parsed.fields, db)
  }

  /** The handler once the body is a dict: a non-empty error dictionary is answered at once. */
  function HandleFields(fields: map<string, Value>, db: Db): Outcome {
    var errors := InputErrors(fields);
    if errors != map[] then ValidationFailed(errors)
    else
      InputErrorsEmptyIff(fields);
      Register(fields, db)
  }

  /** The handler on a body that passed validation: a `cognito_user_id` that is present but not a
      string raises in `.strip()`; otherwise the normalised email is looked up and, when new,
      inserted. */
  function Register(fields: map<string, Value>, db: Db): (o: Outcome)
    requires Acceptable(fields)
    ensures StatusCode(o) != 400
  {
    if "cognito_user_id" in fields && !fields["cognito_user_id"].JStr? then InternalError
    else
      var email := Lower(PyStrip(fields["email"].s));
      var displayName := PyStrip(fields["display_name"].s);
      if db.lookupFails then InternalError
      else if email in db.existing then AlreadyExists(email)
      else if db.insertFails then InternalError
      else Created(email, displayName)
  }

  /** Both 400 answers are reached before the database is consulted: they are the same whatever
      the database holds. */
  lemma BadRequestsNeverReachDb(body: Option<Value>, loads: string -> Option<Value>, db: Db, db': Db)
    requires StatusCode(Handle(body, loads, db)) == 400
    ensures Handle(body, loads, db') == Handle(body, loads, db)
  {
    var parsed := LoadBody(body, loads);
    if parsed.Some? && parsed.value.JObj? {
      var fields := parsed.value.fields;
      assert Handle(body, loads, db) == HandleFields(fields, db);
      assert Handle(body, loads, db') == HandleFields(fields, db');
    }
  }

  /** An undecodable string body, and only that, is answered with the JSON error. */
  lemma InvalidJsonIff(body: Option<Value>, loads: string -> Option<Value>, db: Db)
    ensures Handle(body, loads, db) == InvalidJson <==> body.Some? && body.value.JStr? && loads(body.value.s).None?
  {
  }

  /** A dict body is answered with validation errors exactly when it is not acceptable, and the
      answer carries the error dictionary. */
  lemma ValidationFailedIff(fields: map<string, Value>, db: Db)
    ensures HandleFields(fields, db).ValidationFailed? <==> !Acceptable(fields)
    ensures HandleFields(fields, db).ValidationFailed? ==> HandleFields(fields, db).details == InputErrors(fields)
  {
    InputErrorsEmptyIff(fields);
  }

  /** Every answer other than the JSON error and the non-dict 500 is the answer for the dict. */
  lemma HandleDict(body: Option<Value>, loads: string -> Option<Value>, db: Db)
    requires LoadBody(body, loads).Some? && LoadBody(body, loads).value.JObj?
    ensures Handle(body, loads, db) == HandleFields(LoadBody(body, loads).value.fields, db)
  {
  }

  /** On a valid body and a working lookup, the answer is 409 exactly when the normalised email
      already has a record; a created user carries the normalised email and display name. */
  lemma ConflictIffExisting(fields: map<string, Value>, loads: string -> Option<Value>, db: Db)
    requires Acceptable(fields) && !db.lookupFails
    requires "cognito_user_id" !in fields || fields["cognito_user_id"].JStr?
    ensures var email := Lower(PyStrip(fields["email"].s));
      && (Handle(Some(JObj(fields)), loads, db) == AlreadyExists(email) <==> email in db.existing)
      && (email !in db.existing && !db.insertFails ==>
            Handle(Some(JObj(fields)), loads, db) == Created(email, PyStrip(fields["display_name"].s)))
  {
    InputErrorsEmptyIff(fields);
  }

  /** A created user comes from an acceptable dict body. */
  lemma CreatedFrom(body: Option<Value>, loads: string -> Option<Value>, db: Db)
    requires Handle(body, loads, db).Created?
    ensures LoadBody(body, loads).Some? && LoadBody(body, loads).value.JObj?
    ensures Acceptable(LoadBody(body, loads).value.fields)
    ensures Handle(body, loads, db) == Register(LoadBody(body, loads).value.fields, db)
  {
    InputErrorsEmptyIff(LoadBody(body, loads).value.fields);
  }

  /** The stored email is stripped and lower-cased, still contains '@' and '.', and is not yet
      registered; the stored display name is stripped, between 1 and 100 characters. */
  lemma CreatedIsNormalised(fields: map<string, Value>, db: Db)
    requires Acceptable(fields) && Register(fields, db).Created?
    ensures var o := Register(fields, db);
      && o.email == Lower(PyStrip(fields["email"].s)) && o.email !in db.existing
      && Lower(o.email) == o.email && PyStrip(o.email) == o.email
      && Contains(o.email, "@") && Contains(o.email, ".")
      && o.displayName == PyStrip(fields["display_name"].s)
      && PyStrip(o.displayName) == o.displayName && 1 <= |o.displayName| <= 100
  {
    NormalisedEmail(fields["email"].s);
    PyStripIdempotent(fields["display_name"].s);
  }

  /** The normalised form of an address that passed the format check. */
  lemma NormalisedEmail(raw: string)
    requires Contains(PyStrip(raw), "@") && Contains(PyStrip(raw), ".")
    ensures var email := Lower(PyStrip(raw));
      && Lower(email) == email && PyStrip(email) == email
      && Contains(email, "@") && Contains(email, ".")
  {
    var e := PyStrip(raw);
    LowerKeepsContains(e, '@');
    LowerKeepsContains(e, '.');
    LowerIdempotent(e);
    PyStripIdempotent(raw);
    LowerKeepsStripped(e);
  }

  lemma LowerIdempotent(s: string)
    ensures Lower(Lower(s)) == Lower(s)
  {
  }

  /** Lower-casing keeps every non-letter where it was. */
  lemma LowerKeepsContains(s: string, c: char)
    requires !('A' <= c <= 'Z') && !('a' <= c <= 'z')
    requires Contains(s, [c])
    ensures Contains(Lower(s), [c])
  {
    var i :| 0 <= i <= |s| - 1 && OccursAt(s, [c], i);
    assert s[i] == c;
    assert Lower(s)[i..i + 1] == [c];
    assert OccursAt(Lower(s), [c], i);
  }

  /** Lower-casing a stripped string leaves it stripped: whitespace is not a letter. */
  lemma LowerKeepsStripped(s: string)
    requires PyStrip(s) == s
    ensures PyStrip(Lower(s)) == Lower(s)
  {
    var l := Lower(s);
    if s != [] {
      var t := TrimStart(s, PyBlanks);
      assert |t| == |s|;
      assert LeadingBlanks(s, PyBlanks) == 0 && t == s;
      assert TrailingBlanks(s, PyBlanks) == 0;
      LowerKeepsBlank(s[0]);
      LowerKeepsBlank(s[|s| - 1]);
      assert l[0] == LowerChar(s[0]) && l[|l| - 1] == LowerChar(s[|s| - 1]);
      assert LeadingBlanks(l, PyBlanks) == 0;
      assert TrimStart(l, PyBlanks) == l;
      assert TrailingBlanks(l, PyBlanks) == 0;
      assert TrimEnd(l, PyBlanks) == l;
    }
  }

  lemma LowerKeepsBlank(c: char)
    ensures IsPyWhitespace(LowerChar(c)) == IsPyWhitespace(c)
  {
  }
}
