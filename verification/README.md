# Contact form: a Dafny model of the `Home` component

The repository is a one-page contact form written as a React component (`Home`
in `src/app/page.tsx`). The component holds three pieces of state:

- the form record `formData`: first name, last name, e-mail, query type and message as strings, plus a consent flag;
- an errors object `errors` with at most one message per field;
- the flag `isSubmitted`, which swaps the form for a confirmation panel.

Three handlers change that state. `handleChange` overwrites one field of the
record. `validateForm` runs six independent checks, including a regular
expression test of the e-mail, and replaces the errors object with the result.
`handleSubmit` validates and raises `isSubmitted` when no check failed.

The model has four modules:

- `EmailPattern` (`email_pattern.dfy`) models the test `/\S+@\S+\.\S+/.test(email)`.
  - `Matches` states what the unanchored search means: there are positions `i`, `j` with `s[i] == '@'`, `s[i-1]` not whitespace, `s[j] == '.'` with `j >= i + 2`, only non-whitespace strictly between them, and a non-whitespace `s[j+1]`.
  - `Test` decides it in one left-to-right pass. Its contract is that the two agree on every string.
  - Whitespace is ECMAScript's `\s` set: the WhiteSpace and LineTerminator code points.
- `FormModel` (`form_data.dfy`) holds the data.
  - `FormData` and `FormErrors` are the source's two interfaces. An absent optional property is `None`.
  - `Keys` is `Object.keys` on an errors object.
  - `ApplyChange` is the copy-and-overwrite done by `handleChange`.
- `Validation` (`validation.dfy`) holds the checks, with the exact message strings.
  - `Check` is the check on one field.
  - `Validate` is the errors object of one validation pass.
- `HomeComponent` (`home.dfy`) holds the component.
  - Class `Home` has the three state fields and one method per handler. `HandleChange` and `HandleSubmit` are proved equal to the pure transition `Step` on a `State` snapshot; `ValidateForm` is proved equal to `Validate`; the constructor yields `InitialState`.
  - `Run` folds `Step` over a sequence of user events. Lemmas about `Run` give the two-state behaviour: the only way into "submitted" is a successful submit, and there is no way out.

The query type is kept as the raw string of the `<select>`. The code checks only
that it is non-empty, so the model does not restrict it to the two option values
`general` and `support`.

## Model

| member | source | states |
|---|---|---|
| `EmailPattern.Test` | src/app/page.tsx:50 | The executable test returns true exactly when some substring of the address matches `\S+@\S+\.\S+` (`Matches`); the search is unanchored and backtracks over every `@`/`.` pair |
| `EmailPattern.ScanOfCorrect` | src/app/page.tsx:50 | After reading any string, each flag of the one-pass scan equals its declarative meaning on that string. The "found" flag is `Matches` itself |
| `EmailPattern.NoAtNoMatch` | src/app/page.tsx:50 | A string with no `@` never matches |
| `EmailPattern.NoDotAfterAtNoMatch` | src/app/page.tsx:50 | A string with no `.` at least two positions after some `@` never matches |
| `EmailPattern.MatchIsLong` | src/app/page.tsx:50 | Every matching string has at least five characters |
| `EmailPattern.ShortestMatch` | src/app/page.tsx:50 | `a@b.c` matches |
| `EmailPattern.Unanchored` | src/app/page.tsx:50 | If `s` matches, then so does `pre + s + post` for any surrounding text |
| `EmailPattern.WhitespaceBreaksMatch` | src/app/page.tsx:50 | `a@b c` and `a @b.c` do not match: whitespace cannot occur inside a match |
| `FormModel.Keys` | src/app/page.tsx:57 | `Object.keys` of an errors object holds exactly the fields whose property is set |
| `FormModel.NoKeysIffEmpty` | src/app/page.tsx:57 | An errors object has zero keys iff it is the empty object `{}` |
| `FormModel.ApplyChange` | src/app/page.tsx:36-42 | A change event overwrites only the named field. A text input stores its raw string; the consent checkbox stores its `checked` boolean. Every other field keeps its old value |
| `FormModel.LastChangeWins` | src/app/page.tsx:38-41 | Two changes to the same input leave the record as the second change alone would |
| `FormModel.DistinctChangesCommute` | src/app/page.tsx:38-41 | Changes to two different inputs give the same record in either order |
| `Validation.Validate` | src/app/page.tsx:44-55 | Each property of the errors object is set iff its check fails. The name and message properties are set iff the string is empty, so whitespace counts as present. `queryType` is set iff the string is empty, `consent` iff the flag is false, and `email` iff the address is empty or fails the pattern. Each property holds its fixed message; `email` holds "This field is required" when empty and "Please enter a valid email address" otherwise, so the two are exclusive |
| `Validation.ValidateEmptyIffComplete` | src/app/page.tsx:44-57 | A pass yields an object with zero keys (validation succeeds) iff every field is filled, the address matches the pattern and consent is given |
| `Validation.NonEmptyEmailWithoutAt` | src/app/page.tsx:48-52 | A non-empty address without `@` gets the invalid-format message, not the required one |
| `Validation.NonEmptyEmailWithoutDotAfterAt` | src/app/page.tsx:48-52 | A non-empty address with no `.` at least two positions after any `@` gets the invalid-format message, not the required one |
| `Validation.InitialFailsEverything` | src/app/page.tsx:25-55 | The initial record fails all six checks with the exact messages. Its errors object has all six keys |
| `Validation.FilledFormPasses` | src/app/page.tsx:44-57 | Jane / Doe / `jane@doe.com` / `general` / Hello / consent given produces no errors |
| `Validation.OnlyEmailMalformed` | src/app/page.tsx:48-52 | The same record with the address `not-an-email` produces exactly one key, `email`, holding the invalid-format message |
| `HomeComponent.SubmittedIffSomeSubmitSucceeded` | src/app/page.tsx:60-65 | After any sequence of edits and submits, `isSubmitted` holds iff it held before or some submit in the sequence validated a record with no errors |
| `HomeComponent.StaysSubmitted` | src/app/page.tsx:60-65 | Once `isSubmitted` is true, no sequence of events makes it false |
| `HomeComponent.EditsLeaveErrorsStale` | src/app/page.tsx:36-42 | A run of edits with no submit changes only the record. The errors object and `isSubmitted` stay as they were |
| `HomeComponent.SubmitReplacesErrors` | src/app/page.tsx:45-56 | After a submit, the stored errors are exactly the pass over the current record. Nothing from an earlier pass survives |
| `HomeComponent.SubmitIdempotent` | src/app/page.tsx:44-65 | Submitting twice with no edit between leaves the same state as submitting once: same errors and same flag |
| `HomeComponent.Home.constructor` | src/app/page.tsx:25-34 | The component starts with all strings empty, consent false, errors `{}` and `isSubmitted` false |
| `HomeComponent.Home.HandleChange` | src/app/page.tsx:36-42 | The record changes as `ApplyChange` says: only the named field. `errors` and `isSubmitted` are untouched |
| `HomeComponent.Home.ValidateForm` | src/app/page.tsx:44-58 | The method builds the errors object with six conditional assignments and stores it in place of the old one. The result equals `Validate` of the record. It returns true iff the object has no keys. The record is not modified, so a second call yields the same object and result |
| `HomeComponent.Home.HandleSubmit` | src/app/page.tsx:60-65 | Errors become `Validate` of the record. `isSubmitted` becomes true iff it was true or the pass has no keys. It is never lowered |

## Left out

- Rendering (src/app/page.tsx:67-196) is presentation only: markup, CSS classes, `aria-invalid`/`aria-describedby` and the confirmation panel. The form-versus-confirmation switch at line 79 is `!isSubmitted`, which the model keeps as a field.
- The `next/head` metadata and the footer links have no logic.
- React's `useState` scheduling, batching and closure capture are not modelled. Each state setter is an immediate field assignment.
- `e.preventDefault()` and the `noValidate` attribute are browser behaviour.
- DOM change events are reduced to a text change (field name and raw value) or a checkbox change (`checked`). The source chooses by `type === 'checkbox'`, and the consent input is the form's only checkbox. A string arriving for `consent`, or a boolean for a text field, cannot be expressed.
- `ApplyChange` accepts any string as a text input's value. For the `type="email"` input a browser first sanitizes the value (it strips line breaks and leading and trailing ASCII whitespace), so the model admits values such as `" "` that the handler never receives from that input. The model is a superset, and its lemmas hold for every value.
- Handlers are not guarded by `isSubmitted`. The code does not check it; once the confirmation is shown, no input exists to fire them.
- JavaScript strings are UTF-16 code units, while Dafny's `char` is a Unicode scalar value, so lone surrogates cannot be represented. Whether the e-mail pattern matches is the same in both views: `@` and `.` are single code units, and no surrogate is whitespace.
- `EmailPattern.IsWhitespace` takes the Unicode space separators (category Zs) as of Unicode 15. A later Unicode version that adds separators would widen `\s`.
