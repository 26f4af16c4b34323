/** `validateForm` as a pure function of the record: six independent checks,
    each contributing a fixed message when it fails. */
module Validation {
  import opened FormModel
  import EmailPattern

  const FieldRequired := "This field is required"
  const InvalidEmail := "Please enter a valid email address"
  const SelectQueryType := "Please select a query type"
  const ConsentRequired := "To submit this form, please consent to being contacted"

  /** The check on one field: the message it contributes, or `None` when the
      field passes. A string is missing only when it is empty (JavaScript's
      `!s`), so a string of spaces is present. The e-mail check tests for
      emptiness first and runs the pattern only on a non-empty address. */
  function Check(fd: FormData, f: Field): Option<string> {
    match f
    case FirstName => if fd.firstName == "" then Some(FieldRequired) else None
    case LastName => if fd.lastName == "" then Some(FieldRequired) else None
    case Email =>
      if fd.email == "" then Some(FieldRequired)
      else if !EmailPattern.Test(fd.email) then Some(InvalidEmail)
      else None
    case QueryType => if fd.queryType == "" then Some(SelectQueryType) else None
    case Message => if fd.message == "" then Some(FieldRequired) else None
    case Consent => if !fd.consent then Some(ConsentRequired) else None
  }

  /** The errors object of one validation pass: every check runs, whatever the
      others found, and each failing one sets its own property. */
  function Validate(fd: FormData): (errs: FormErrors)
    ensures errs.firstName.Some? <==> fd.firstName == ""
    ensures errs.lastName.Some? <==> fd.lastName == ""
    ensures errs.email.Some? <==> fd.email == "" || !EmailPattern.Matches(fd.email)
    ensures errs.queryType.Some? <==> fd.queryType == ""
    ensures errs.message.Some? <==> fd.message == ""
    ensures errs.consent.Some? <==> !fd.consent
    ensures errs.firstName.Some? ==> errs.firstName.value == FieldRequired
    ensures errs.lastName.Some? ==> errs.lastName.value == FieldRequired
    ensures errs.email.Some? ==>
      errs.email.value == if fd.email == "" then FieldRequired else InvalidEmail
    ensures errs.queryType.Some? ==> errs.queryType.value == SelectQueryType
    ensures errs.message.Some? ==> errs.message.value == FieldRequired
    ensures errs.consent.Some? ==> errs.consent.value == ConsentRequired
  {
    FormErrors(
      Check(fd, FirstName), Check(fd, LastName), Check(fd, Email),
      Check(fd, QueryType), Check(fd, Message), Check(fd, Consent))
  }

  /** Every check passes. */
  ghost predicate Complete(fd: FormData) {
    && fd.firstName != ""
    && fd.lastName != ""
    && fd.email != "" && EmailPattern.Matches(fd.email)
    && fd.queryType != ""
    && fd.message != ""
    && fd.consent
  }

  /** A pass succeeds (its object has no keys) exactly when every check passes. */
  lemma {:induction false} ValidateEmptyIffComplete(fd: FormData)
    ensures |Keys(Validate(fd))| == 0 <==> Complete(fd)
  {
    NoKeysIffEmpty(Validate(fd));
    if Complete(fd) {
      assert EmailPattern.Test(fd.email);
    }
  }

  /** A non-empty e-mail without `@` gets the invalid-format message, never
      the required one. */
  lemma NonEmptyEmailWithoutAt(fd: FormData)
    requires fd.email != ""
    requires forall k :: 0 <= k < |fd.email| ==> fd.email[k] != '@'
    ensures Validate(fd).email == Some(InvalidEmail)
  {
    EmailPattern.NoAtNoMatch(fd.email);
  }

  /** Likewise for a non-empty e-mail with no `.` at least two positions after
      any `@`. */
  lemma NonEmptyEmailWithoutDotAfterAt(fd: FormData)
    requires fd.email != ""
    requires forall i, j :: 0 <= i < j < |fd.email| && fd.email[i] == '@' && fd.email[j] == '.' ==> j < i + 2
    ensures Validate(fd).email == Some(InvalidEmail)
  {
    EmailPattern.NoDotAfterAtNoMatch(fd.email);
  }

  /** The untouched form fails every check, with the exact messages. */
  lemma InitialFailsEverything()
    ensures Validate(Initial) == FormErrors(
      Some(FieldRequired), Some(FieldRequired), Some(FieldRequired),
      Some(SelectQueryType), Some(FieldRequired), Some(ConsentRequired))
    ensures Keys(Validate(Initial)) == AllFields && |Keys(Validate(Initial))| == 6
  {
    assert Keys(Validate(Initial)) == AllFields;
  }

  /** A fully and correctly filled form passes. */
  lemma FilledFormPasses()
    ensures Validate(FormData("Jane", "Doe", "jane@doe.com", "general", "Hello", true)) == NoErrors
  {
    var fd := FormData("Jane", "Doe", "jane@doe.com", "general", "Hello", true);
    assert EmailPattern.MatchAt(fd.email, 4, 8);
  }

  /** A form that is complete except for a malformed e-mail has exactly one
      error, on the e-mail. */
  lemma OnlyEmailMalformed()
    ensures Validate(FormData("Jane", "Doe", "not-an-email", "general", "Hello", true))
         == NoErrors.(email := Some(InvalidEmail))
    ensures Keys(NoErrors.(email := Some(InvalidEmail))) == {Email}
  {
    var fd := FormData("Jane", "Doe", "not-an-email", "general", "Hello", true);
    NonEmptyEmailWithoutAt(fd);
    assert Keys(NoErrors.(email := Some(InvalidEmail))) == {Email};
  }
}
