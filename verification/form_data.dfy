/** The records the contact form keeps (`FormData`, `FormErrors`), and the
    update a change event makes to the first (`handleChange`). */
module FormModel {

  datatype Option<+T> = None | Some(value: T)

  /** The six inputs of the form; also the keys of the error map. */
  datatype Field = FirstName | LastName | Email | QueryType | Message | Consent

  const AllFields: set<Field> := {FirstName, LastName, Email, QueryType, Message, Consent}

  /** The inputs whose value is text. Only `consent` is a checkbox. */
  type TextField = f: Field | f != Consent witness FirstName

  /** `FormData`: five strings and the consent flag. The query type is the raw
      `value` of the select, so it stays a string ("" when nothing is chosen). */
  datatype FormData = FormData(
    firstName: string,
    lastName: string,
    email: string,
    queryType: string,
    message: string,
    consent: bool)

  /** The record the component starts with. */
  const Initial := FormData("", "", "", "", "", false)

  /** `FormErrors`: one optional message per field; an absent property is
      `None`. */
  datatype FormErrors = FormErrors(
    firstName: Option<string>,
    lastName: Option<string>,
    email: Option<string>,
    queryType: Option<string>,
    message: Option<string>,
    consent: Option<string>)

  /** The empty object `{}`. */
  const NoErrors := FormErrors(None, None, None, None, None, None)

  /** The property of `e` named by `f`. */
  function Get(e: FormErrors, f: Field): Option<string> {
    match f
    case FirstName => e.firstName
    case LastName => e.lastName
    case Email => e.email
    case QueryType => e.queryType
    case Message => e.message
    case Consent => e.consent
  }

  /** `Object.keys(e)`: the fields that hold a message. */
  function Keys(e: FormErrors): (ks: set<Field>)
    ensures forall f :: f in ks <==> Get(e, f).Some?
  {
    set f | f in AllFields && Get(e, f).Some?
  }

  /** An errors object has no keys exactly when it is `{}`. */
  lemma {:induction false} NoKeysIffEmpty(e: FormErrors)
    ensures |Keys(e)| == 0 <==> e == NoErrors
  {
    if e != NoErrors {
      var f :| f in AllFields && Get(e, f).Some?;
      assert f in Keys(e);
    }
  }

  /** The text held by one text field. */
  function TextOf(fd: FormData, f: TextField): string {
    match f
    case FirstName => fd.firstName
    case LastName => fd.lastName
    case Email => fd.email
    case QueryType => fd.queryType
    case Message => fd.message
  }

  /** A change event, reduced to what `handleChange` reads from its target: a
      text input, select or textarea delivers its `name` and raw `value`; the
      checkbox (the consent input) delivers `checked`. */
  datatype ChangeEvent =
    | TextChange(name: TextField, value: string)
    | CheckboxChange(checked: bool)

  /** The record `handleChange` builds: a copy of `fd` with the named field
      overwritten, the checkbox storing its boolean and other inputs the raw
      string. */
  function ApplyChange(fd: FormData, ev: ChangeEvent): (r: FormData)
    ensures forall f: TextField ::
      TextOf(r, f) == if ev.TextChange? && ev.name == f then ev.value else TextOf(fd, f)
    ensures r.consent == if ev.CheckboxChange? then ev.checked else fd.consent
  {
    match ev
    case CheckboxChange(b) => fd.(consent := b)
    case TextChange(FirstName, v) => fd.(firstName := v)
    case TextChange(LastName, v) => fd.(lastName := v)
    case TextChange(Email, v) => fd.(email := v)
    case TextChange(QueryType, v) => fd.(queryType := v)
    case TextChange(Message, v) => fd.(message := v)
  }

  /** A second change to the same input overwrites the first. */
  lemma LastChangeWins(fd: FormData, e1: ChangeEvent, e2: ChangeEvent)
    requires (e1.TextChange? && e2.TextChange? && e1.name == e2.name)
          || (e1.CheckboxChange? && e2.CheckboxChange?)
    ensures ApplyChange(ApplyChange(fd, e1), e2) == ApplyChange(fd, e2)
  {
  }

  /** Changes to two different inputs do not interfere: their order is irrelevant. */
  lemma DistinctChangesCommute(fd: FormData, e1: ChangeEvent, e2: ChangeEvent)
    requires !((e1.TextChange? && e2.TextChange? && e1.name == e2.name)
              || (e1.CheckboxChange? && e2.CheckboxChange?))
    ensures ApplyChange(ApplyChange(fd, e1), e2) == ApplyChange(ApplyChange(fd, e2), e1)
  {
  }
}
