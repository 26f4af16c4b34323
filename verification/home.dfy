/** The `Home` component: its three pieces of state and the handlers that
    overwrite them, plus the same transitions as pure functions on a snapshot
    of that state, so that whole event sequences can be reasoned about. */
module HomeComponent {
  import opened FormModel
  import opened Validation

  /** The component's state at one moment. */
  datatype State = State(formData: FormData, errors: FormErrors, isSubmitted: bool)

  /** Empty fields, no errors, the form (not the confirmation) on screen. */
  const InitialState := State(Initial, NoErrors, false)

  /** What the user can do: edit an input, or submit the form. */
  datatype Event = Change(change: ChangeEvent) | Submit

  /** One handler run. A change copies the record with one field replaced and
      leaves the errors stale; a submit replaces the errors with a fresh pass
      and raises the submitted flag when that pass is empty. */
  function Step(st: State, e: Event): State {
    match e
    case Change(ev) => st.(formData := ApplyChange(st.formData, ev))
    case Submit =>
      var errs := Validate(st.formData);
      st.(errors := errs, isSubmitted := st.isSubmitted || |Keys(errs)| == 0)
  }

  /** The state after the events `evs`, in order. */
  function Run(st: State, evs: seq<Event>): State
    decreases |evs|
  {
    if evs == [] then st else Step(Run(st, evs[..|evs| - 1]), evs[|evs| - 1])
  }

  /** Event `k` of `evs` is a submit whose validation pass came back empty. */
  ghost predicate SubmitSucceedsAt(st: State, evs: seq<Event>, k: int) {
    0 <= k < |evs| && evs[k] == Submit && |Keys(Validate(Run(st, evs[..k]).formData))| == 0
  }

  /** The confirmation is shown after a run exactly when it was shown before,
      or some submit along the way validated successfully: a successful submit
      is the only way in, and there is no way out. */
  lemma {:induction false} SubmittedIffSomeSubmitSucceeded(st: State, evs: seq<Event>)
    ensures Run(st, evs).isSubmitted <==>
      st.isSubmitted || exists k :: SubmitSucceedsAt(st, evs, k)
    decreases |evs|
  {
    if evs != [] {
      var n := |evs| - 1;
      var p := evs[..n];
      SubmittedIffSomeSubmitSucceeded(st, p);
      assert Run(st, evs) == Step(Run(st, p), evs[n]);
      assert forall k | 0 <= k < n :: evs[..k] == p[..k];
      assert forall k | 0 <= k < n :: SubmitSucceedsAt(st, evs, k) <==> SubmitSucceedsAt(st, p, k);
      if SubmitSucceedsAt(st, evs, n) {
        assert Run(st, evs).isSubmitted;
      } else if Run(st, evs).isSubmitted && !st.isSubmitted {
        assert Run(st, p).isSubmitted;
        var k :| SubmitSucceedsAt(st, p, k);
        assert SubmitSucceedsAt(st, evs, k);
      }
    }
  }

  /** Once submitted, always submitted. */
  lemma StaysSubmitted(st: State, evs: seq<Event>)
    requires st.isSubmitted
    ensures Run(st, evs).isSubmitted
  {
    SubmittedIffSomeSubmitSucceeded(st, evs);
  }

  /** The record obtained by applying the change events of `evs` only. */
  function ApplyChanges(fd: FormData, evs: seq<Event>): FormData
    decreases |evs|
  {
    if evs == [] then fd
    else
      var last := evs[|evs| - 1];
      var rest := ApplyChanges(fd, evs[..|evs| - 1]);
      if last.Change? then ApplyChange(rest, last.change) else rest
  }

  /** Without a submit, edits change only the record: the error map stays as
      the last validation pass left it, and the submitted flag does not move. */
  lemma {:induction false} EditsLeaveErrorsStale(st: State, evs: seq<Event>)
    requires forall k | 0 <= k < |evs| :: evs[k] != Submit
    ensures Run(st, evs).errors == st.errors
    ensures Run(st, evs).isSubmitted == st.isSubmitted
    ensures Run(st, evs).formData == ApplyChanges(st.formData, evs)
    decreases |evs|
  {
    if evs != [] {
      EditsLeaveErrorsStale(st, evs[..|evs| - 1]);
    }
  }

  /** After a submit the stored errors are exactly those of the current record,
      whatever errors were stored before: nothing from an earlier pass survives. */
  lemma SubmitReplacesErrors(st: State, evs: seq<Event>)
    ensures Run(st, evs + [Submit]).errors == Validate(Run(st, evs).formData)
  {
    assert (evs + [Submit])[..|evs|] == evs;
  }

  /** A second submit with no edit in between changes nothing: the pass is a
      function of the record alone, so it rebuilds the same errors object and
      reaches the same verdict. */
  lemma {:induction false} SubmitIdempotent(st: State)
    ensures Run(st, [Submit, Submit]) == Run(st, [Submit])
  {
    assert [Submit, Submit][..1] == [Submit];
    assert [Submit][..0] == [];
  }

  /** The component. Each React state setter is modelled as an immediate
      assignment to the corresponding field. */
  class Home {
    var formData: FormData
    var errors: FormErrors
    var isSubmitted: bool

    /** The state as one value. */
    function Snapshot(): State
      reads this
    {
      State(formData, errors, isSubmitted)
    }

    constructor ()
      ensures Snapshot() == InitialState
    {
      formData := Initial;
      errors := NoErrors;
      isSubmitted := false;
    }

    /** `handleChange`: only the named field of the record changes. The clause
        on `errors` and `isSubmitted` follows from the `modifies` frame; it is
        spelled out for the reader. */
    method HandleChange(ev: ChangeEvent)
      modifies this`formData
      ensures forall f: TextField ::
        TextOf(formData, f) == if ev.TextChange? && ev.name == f then ev.value else TextOf(old(formData), f)
      ensures formData.consent == if ev.CheckboxChange? then ev.checked else old(formData.consent)
      ensures errors == old(errors) && isSubmitted == old(isSubmitted)
      ensures Snapshot() == Step(old(Snapshot()), Change(ev))
    {
      formData := ApplyChange(formData, ev);
    }

    /** `validateForm`: builds a new errors object check by check, stores it
        in place of the old one, and reports whether it has no keys. */
    method ValidateForm() returns (ok: bool)
      modifies this`errors
      ensures errors == Validate(formData)
      ensures ok <==> |Keys(errors)| == 0
    {
      var fd := formData;
      var newErrors := NoErrors;
      if fd.firstName == "" { newErrors := newErrors.(firstName := Some(FieldRequired)); }
      if fd.lastName == "" { newErrors := newErrors.(lastName := Some(FieldRequired)); }
      if fd.email == "" {
        newErrors := newErrors.(email := Some(FieldRequired));
      } else if !EmailPattern.Test(fd.email) {
        newErrors := newErrors.(email := Some(InvalidEmail));
      }
      if fd.queryType == "" { newErrors := newErrors.(queryType := Some(SelectQueryType)); }
      if fd.message == "" { newErrors := newErrors.(message := Some(FieldRequired)); }
      if !fd.consent { newErrors := newErrors.(consent := Some(ConsentRequired)); }
      errors := newErrors;
      ok := |Keys(newErrors)| == 0;
    }

    /** `handleSubmit`: validates, and raises the submitted flag only when the
        pass succeeded. Nothing ever lowers it; that clause follows from the
        one before and is spelled out for the reader. */
    method HandleSubmit()
      modifies this`errors, this`isSubmitted
      ensures errors == Validate(formData)
      ensures isSubmitted <==> old(isSubmitted) || |Keys(Validate(formData))| == 0
      ensures old(isSubmitted) ==> isSubmitted
      ensures Snapshot() == Step(old(Snapshot()), Submit)
    {
      var ok := ValidateForm();
      if ok {
        isSubmitted := true;
      }
    }
  }
}
