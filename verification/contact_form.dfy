/** The contact form's state: field values, touched flags, the error map
    and the submission status, driven by change, blur and submit events and
    by the two timers the submit handler starts. The re-validation effect
    (which React runs after every change of the values or the touched
    flags) is applied explicitly after the events that change them. */
module ContactForm {
  import opened Options
  import opened Text
  import opened FormFields
  import opened Validation

  datatype Status = Idle | Submitting | Success | Error

  type Errors = map<Field, FieldError>

  /** The component's state. The two counters stand for timers that have
      been started and not yet fired: the 1500 ms submission placeholder and
      the 5000 ms status reset. */
  datatype FormState = FormState(
    data: Fields<string>,
    touched: Fields<bool>,
    errors: Errors,
    status: Status,
    pendingCompletions: nat,
    pendingResets: nat)

  datatype Event =
    | Change(field: Field, value: string)
    | Blur(field: Field)
    | Submit
    | CompletionTimer
    | ResetTimer

  const EmptyData: Fields<string> := Uniform("")
  const NoneTouched: Fields<bool> := Uniform(false)
  const AllTouched: Fields<bool> := Uniform(true)

  const Initial: FormState := FormState(EmptyData, NoneTouched, map[], Idle, 0, 0)

  /** `errors[f]`, with `undefined` as `None`. */
  function Lookup(m: Errors, f: Field): Option<FieldError>
  {
    if f in m then Some(m[f]) else None
  }

  /** Error maps that agree on every lookup are equal. */
  lemma LookupExtensional(a: Errors, b: Errors)
    requires forall f :: Lookup(a, f) == Lookup(b, f)
    ensures a == b
  {
    assert forall f :: f in a <==> Lookup(a, f).Some?;
    assert forall f :: f in b <==> Lookup(b, f).Some?;
  }

  /** `{ ...m, [Key(f)]: e }`; an `undefined` entry reads like a missing one,
      so it is stored as a missing one. */
  function SetError(m: Errors, f: Field, e: Option<FieldError>): (r: Errors)
    ensures Lookup(r, f) == e
    ensures forall g :: g != f ==> Lookup(r, g) == Lookup(m, g)
  {
    match e
    case Some(x) => m[f := x]
    case None => m - {f}
  }

  /** The re-validation effect: for each key in order, a touched field's
      entry is overwritten by its current verdict; untouched fields keep
      whatever entry they had. */
  function Revalidate(keys: seq<Field>, data: Fields<string>, touched: Fields<bool>, errs: Errors): (r: Errors)
    ensures forall f :: f in keys && touched.Get(f) ==> Lookup(r, f) == Validate(f, data.Get(f))
    ensures forall f :: !(f in keys && touched.Get(f)) ==> Lookup(r, f) == Lookup(errs, f)
    decreases |keys|
  {
    if keys == [] then errs
    else
      var f := keys[0];
      var e := if touched.Get(f) then SetError(errs, f, ValidateField(Key(f), data.Get(f))) else errs;
      Revalidate(keys[1..], data, touched, e)
  }

  /** With no field touched the effect changes nothing. */
  lemma RevalidateUntouched(keys: seq<Field>, data: Fields<string>, touched: Fields<bool>, errs: Errors)
    requires forall f :: !touched.Get(f)
    ensures Revalidate(keys, data, touched, errs) == errs
  {
    LookupExtensional(Revalidate(keys, data, touched, errs), errs);
  }

  /** State after the re-validation effect has run. */
  function Settle(s: FormState): (r: FormState)
    ensures r.data == s.data && r.touched == s.touched && r.status == s.status
    ensures r.pendingCompletions == s.pendingCompletions && r.pendingResets == s.pendingResets
    ensures forall f :: Lookup(r.errors, f) == (if s.touched.Get(f) then Validate(f, s.data.Get(f)) else Lookup(s.errors, f))
  {
    FormKeysEnumerateFields();
    s.(errors := Revalidate(FormKeys, s.data, s.touched, s.errors))
  }

  /** `handleChange` and the effect it triggers: only the named value
      changes, and the touched fields' entries are recomputed. */
  function StepChange(s: FormState, f: Field, v: string): (r: FormState)
    ensures r.data == s.data.Set(f, v)
    ensures r.touched == s.touched && r.status == s.status
    ensures r.pendingCompletions == s.pendingCompletions && r.pendingResets == s.pendingResets
    ensures forall g :: Lookup(r.errors, g) == (if r.touched.Get(g) then Validate(g, r.data.Get(g)) else Lookup(s.errors, g))
  {
    FormKeysEnumerateFields();
    Settle(s.(data := s.data.Set(f, v)))
  }

  /** `handleBlur` and the effect it triggers: only the named touched flag
      changes, and the touched fields' entries are recomputed. */
  function StepBlur(s: FormState, f: Field): (r: FormState)
    ensures r.touched == s.touched.Set(f, true)
    ensures r.data == s.data && r.status == s.status
    ensures r.pendingCompletions == s.pendingCompletions && r.pendingResets == s.pendingResets
    ensures forall g :: Lookup(r.errors, g) == (if r.touched.Get(g) then Validate(g, r.data.Get(g)) else Lookup(s.errors, g))
  {
    FormKeysEnumerateFields();
    Settle(s.(touched := s.touched.Set(f, true)))
  }

  /** After a submit every field is touched and already holds its verdict,
      so the effect that follows changes nothing. */
  lemma SubmitEffectIdle(data: Fields<string>)
    ensures Revalidate(FormKeys, data, AllTouched, FormErrors(data)) == FormErrors(data)
  {
    FormKeysEnumerateFields();
    FormErrorsLookup(data);
    LookupExtensional(Revalidate(FormKeys, data, AllTouched, FormErrors(data)), FormErrors(data));
  }

  /** `handleSubmit`: every field becomes touched and the error map becomes
      `validateForm`'s; on valid data the submission starts, otherwise the
      status stays. While submitting the button is disabled and nothing
      happens. The effect that follows changes nothing (`SubmitEffectIdle`),
      so it is not applied here. */
  function StepSubmit(s: FormState): (r: FormState)
    ensures s.status == Submitting ==> r == s
    ensures s.status != Submitting ==>
      && r.touched == AllTouched
      && r.data == s.data
      && r.pendingResets == s.pendingResets
      && (forall f :: Lookup(r.errors, f) == Validate(f, s.data.Get(f)))
    ensures s.status != Submitting && FormValid(s.data) ==>
      r.status == Submitting && r.pendingCompletions == s.pendingCompletions + 1
    ensures s.status != Submitting && !FormValid(s.data) ==>
      r.status == s.status && r.pendingCompletions == s.pendingCompletions
  {
    if s.status == Submitting then s
    else
      FormErrorsLookup(s.data);
      var marked := s.(touched := AllTouched, errors := FormErrors(s.data));
      if FormValid(s.data) then marked.(status := Submitting, pendingCompletions := s.pendingCompletions + 1)
      else marked
  }

  /** The 1500 ms timer: success, all values cleared, no field touched, no
      errors, and the 5000 ms reset started. With no timer pending there is
      no callback to run. The effect that follows finds no touched field and
      changes nothing (`RevalidateUntouched`), so it is not applied here. */
  function StepCompletion(s: FormState): (r: FormState)
    ensures s.pendingCompletions == 0 ==> r == s
    ensures s.pendingCompletions > 0 ==>
      && r.status == Success
      && r.data == EmptyData && r.touched == NoneTouched && r.errors == map[]
      && r.pendingCompletions == s.pendingCompletions - 1 && r.pendingResets == s.pendingResets + 1
  {
    if s.pendingCompletions == 0 then s
    else
      FormState(EmptyData, NoneTouched, map[], Success, s.pendingCompletions - 1, s.pendingResets + 1)
  }

  /** The 5000 ms timer: back to idle, nothing else changes. */
  function StepReset(s: FormState): (r: FormState)
    ensures s.pendingResets == 0 ==> r == s
    ensures s.pendingResets > 0 ==> r.status == Idle && r == s.(status := r.status, pendingResets := s.pendingResets - 1)
  {
    if s.pendingResets == 0 then s
    else s.(status := Idle, pendingResets := s.pendingResets - 1)
  }

  /** One event. No handler sets the `error` status. */
  function Step(s: FormState, e: Event): (r: FormState)
    ensures r.status == Error ==> s.status == Error
  {
    match e
    case Change(f, v) => StepChange(s, f, v)
    case Blur(f) => StepBlur(s, f)
    case Submit => StepSubmit(s)
    case CompletionTimer => StepCompletion(s)
    case ResetTimer => StepReset(s)
  }

  /** Every entry of the aggregate error map is that field's verdict. */
  lemma FormErrorsLookup(data: Fields<string>)
    ensures forall f :: Lookup(FormErrors(data), f) == Validate(f, data.Get(f))
  {
    FormKeysEnumerateFields();
  }

  /** The events applied in order. */
  function Run(s: FormState, events: seq<Event>): FormState
    decreases |events|
  {
    if events == [] then s else Run(Step(s, events[0]), events[1..])
  }

  // ----- what the user sees -----

  /** `touched[f] && errors[f]`: the message under a field is rendered only
      for a touched field that has an entry; with the error map in step
      (`ErrorsAgree`) that is exactly a touched field failing its rule. */
  function ErrorShown(s: FormState, f: Field): (r: bool)
    ensures r ==> s.touched.Get(f) && Lookup(s.errors, f).Some?
    ensures ErrorsAgree(s) ==> (r <==> s.touched.Get(f) && Validate(f, s.data.Get(f)).Some?)
  {
    f in s.errors && s.touched.Get(f)
  }

  /** `isFieldValid(f)`: the green border. With the error
      map in step it means touched, passing, and not blank. */
  function IsFieldValid(s: FormState, f: Field): (r: bool)
    ensures r ==> s.touched.Get(f) && Lookup(s.errors, f).None? && !IsBlank(s.data.Get(f))
    ensures ErrorsAgree(s) ==> (r <==> s.touched.Get(f) && Validate(f, s.data.Get(f)) == None && !IsBlank(s.data.Get(f)))
  {
    TrimEmptyIffBlank(s.data.Get(f));
    s.touched.Get(f) && f !in s.errors && Trim(s.data.Get(f)) != []
  }

  /** The green check icon: `touched.f && !errors.f && formData.f`. Unlike
      the border it tests the untrimmed value, and the message field has no
      icon. With the error map in step it means touched, passing, and not
      empty. */
  function CheckShown(s: FormState, f: Field): (r: bool)
    ensures r ==> f != Message && s.touched.Get(f) && Lookup(s.errors, f).None? && s.data.Get(f) != ""
    ensures ErrorsAgree(s) ==> (r <==> f != Message && s.touched.Get(f) && Validate(f, s.data.Get(f)) == None && s.data.Get(f) != "")
  {
    f != Message && s.touched.Get(f) && f !in s.errors && s.data.Get(f) != ""
  }

  /** The error map holds exactly the verdicts of the touched fields. */
  ghost predicate ErrorsAgree(s: FormState)
  {
    forall f :: Lookup(s.errors, f) == (if s.touched.Get(f) then Validate(f, s.data.Get(f)) else None)
  }

  lemma InitialErrorsAgree()
    ensures ErrorsAgree(Initial)
  {
  }

  /** Every event keeps the error map in step with the values and touched flags. */
  lemma StepKeepsErrorsAgree(s: FormState, e: Event)
    requires ErrorsAgree(s)
    ensures ErrorsAgree(Step(s, e))
  {
  }

  /** Along any sequence of events the error map stays in step, and the
      `error` status, which no handler sets, is never entered. */
  lemma {:induction false} RunInvariants(s: FormState, events: seq<Event>)
    requires ErrorsAgree(s) && s.status != Error
    ensures ErrorsAgree(Run(s, events))
    ensures Run(s, events).status != Error
    decreases |events|
  {
    if events != [] {
      StepKeepsErrorsAgree(s, events[0]);
      RunInvariants(Step(s, events[0]), events[1..]);
    }
  }

  /** Whatever the user does, starting from a fresh form the status is
      never `error`, and a message is shown for a field exactly when it is
      touched and fails its rule. */
  lemma ReachableStates(events: seq<Event>, f: Field)
    ensures Run(Initial, events).status != Error
    ensures ErrorShown(Run(Initial, events), f) <==>
      Run(Initial, events).touched.Get(f) && Validate(f, Run(Initial, events).data.Get(f)).Some?
  {
    RunInvariants(Initial, events);
  }

  /** With the error map in step, the green state means touched, passing,
      and not blank. */
  lemma FieldValidMeaning(s: FormState, f: Field)
    requires ErrorsAgree(s)
    ensures IsFieldValid(s, f) <==> s.touched.Get(f) && Validate(f, s.data.Get(f)) == None && !IsBlank(s.data.Get(f))
    ensures f != ServiceType ==> (IsFieldValid(s, f) <==> s.touched.Get(f) && Validate(f, s.data.Get(f)) == None)
  {
    TrimEmptyIffBlank(s.data.Get(f));
  }

  /** On the name, phone and e-mail fields, whose rules reject blank
      values, the check icon shows exactly when the border is green. */
  lemma CheckMatchesBorder(s: FormState, f: Field)
    requires ErrorsAgree(s) && f != ServiceType && f != Message
    ensures CheckShown(s, f) <==> IsFieldValid(s, f)
  {
    FieldValidMeaning(s, f);
    var v := s.data.Get(f);
    if v == "" {
      assert IsBlank(v);
    }
  }

  /** A service type of one space passes its rule and shows no error. The
      border is not green, because `isFieldValid` trims, but the check icon,
      which tests the untrimmed value, still shows. The select offers no
      such value (its options are "" and the five service types), so only
      a value set by other means gets here. */
  lemma BlankServiceTypeCheckWithoutBorder(s: FormState)
    requires ErrorsAgree(s) && s.touched.Get(ServiceType) && s.data.Get(ServiceType) == " "
    ensures !ErrorShown(s, ServiceType) && !IsFieldValid(s, ServiceType)
    ensures CheckShown(s, ServiceType)
  {
    assert IsWhitespace(" "[0]);
    FieldValidMeaning(s, ServiceType);
  }

  /** A submit on valid data starts the submission with no error entry. */
  lemma SubmitValid(s: FormState)
    requires s.status != Submitting && FormValid(s.data)
    ensures Step(s, Submit).status == Submitting
    ensures Step(s, Submit).errors == map[]
    ensures Step(s, Submit).pendingCompletions > 0
  {
    var s1 := StepSubmit(s);
    FormValidIffNoErrors(s.data);
    assert forall f :: Lookup(s1.errors, f) == None;
    LookupExtensional(s1.errors, map[]);
  }

  /** After a submission has started (`SubmitValid`), its timer brings
      success with a cleared form, and the reset timer then brings idle. */
  lemma CompletionLifecycle(s: FormState)
    requires s.pendingCompletions > 0
    ensures Run(s, [CompletionTimer]).status == Success
    ensures Run(s, [CompletionTimer]).data == EmptyData
    ensures Run(s, [CompletionTimer]).touched == NoneTouched
    ensures Run(s, [CompletionTimer]).errors == map[]
    ensures Run(s, [CompletionTimer, ResetTimer]).status == Idle
  {
    var s2 := StepCompletion(s);
    assert Run(s, [CompletionTimer]) == s2 by {
      assert [CompletionTimer][1..] == [];
    }
    assert Run(s, [CompletionTimer, ResetTimer]) == StepReset(s2) by {
      assert [CompletionTimer, ResetTimer][1..] == [ResetTimer];
      assert [ResetTimer][1..] == [];
    }
  }

  /** On invalid data a submit touches every field, shows every failing
      field's error, and leaves the status alone. */
  lemma SubmitInvalid(s: FormState, f: Field)
    requires s.status != Submitting && !FormValid(s.data)
    ensures Step(s, Submit).status == s.status
    ensures Step(s, Submit).touched.Get(f)
    ensures ErrorShown(Step(s, Submit), f) <==> Validate(f, s.data.Get(f)).Some?
  {
    var r := StepSubmit(s);
    assert Step(s, Submit) == r;
    assert r.touched.Get(f);
    assert f in r.errors <==> Lookup(r.errors, f).Some?;
  }

  // ----- the stale reset timer -----

  /** Running a non-empty sequence is one step followed by the rest. */
  lemma RunCons(s: FormState, e: Event, rest: seq<Event>)
    ensures Run(s, [e] + rest) == Run(Step(s, e), rest)
  {
    assert ([e] + rest)[1..] == rest;
  }

  lemma RunSingle(s: FormState, e: Event)
    ensures Run(s, [e]) == Step(s, e)
  {
    RunCons(s, e, []);
    assert [e] + [] == [e];
  }

  /** Run distributes over concatenation of event sequences. */
  lemma {:induction false} RunAppend(s: FormState, a: seq<Event>, b: seq<Event>)
    ensures Run(s, a + b) == Run(Run(s, a), b)
    decreases |a|
  {
    if a == [] {
      assert a + b == b;
    } else {
      assert (a + b)[0] == a[0] && (a + b)[1..] == a[1..] + b;
      RunAppend(Step(s, a[0]), a[1..], b);
    }
  }

  /** Typing each value of `d` into its field, in form order. */
  function Fill(d: Fields<string>): seq<Event>
  {
    [Change(Name, d.name), Change(Phone, d.phone), Change(Email, d.email),
     Change(ServiceType, d.serviceType), Change(Message, d.message)]
  }

  // Each event's effect on everything but the error map, stated apart so
  // that traces can be followed without unfolding the re-validation.

  lemma StepChangeFacts(s: FormState, f: Field, v: string)
    ensures Step(s, Change(f, v)).data == s.data.Set(f, v)
    ensures Step(s, Change(f, v)).touched == s.touched && Step(s, Change(f, v)).status == s.status
    ensures Step(s, Change(f, v)).pendingCompletions == s.pendingCompletions
    ensures Step(s, Change(f, v)).pendingResets == s.pendingResets
  {
  }

  lemma StepSubmitValidFacts(s: FormState)
    requires s.status != Submitting && FormValid(s.data)
    ensures Step(s, Submit).data == s.data && Step(s, Submit).status == Submitting
    ensures Step(s, Submit).pendingCompletions == s.pendingCompletions + 1
    ensures Step(s, Submit).pendingResets == s.pendingResets
  {
  }

  lemma StepCompletionFacts(s: FormState)
    requires s.pendingCompletions > 0
    ensures Step(s, CompletionTimer).status == Success
    ensures Step(s, CompletionTimer).touched == NoneTouched
    ensures Step(s, CompletionTimer).pendingCompletions == s.pendingCompletions - 1
    ensures Step(s, CompletionTimer).pendingResets == s.pendingResets + 1
  {
  }

  lemma StepResetFacts(s: FormState)
    requires s.pendingResets > 0
    ensures Step(s, ResetTimer).data == s.data && Step(s, ResetTimer).status == Idle
    ensures Step(s, ResetTimer).pendingCompletions == s.pendingCompletions
    ensures Step(s, ResetTimer).pendingResets == s.pendingResets - 1
  {
  }

  /** The values after a sequence of change events. */
  function ApplyChanges(data: Fields<string>, evs: seq<Event>): Fields<string>
    requires forall i :: 0 <= i < |evs| ==> evs[i].Change?
    decreases |evs|
  {
    if evs == [] then data else ApplyChanges(data.Set(evs[0].field, evs[0].value), evs[1..])
  }

  /** Change events alone only set values: they touch nothing and start or
      stop no timer. */
  lemma {:induction false} RunChangesKeep(s: FormState, evs: seq<Event>)
    requires forall i :: 0 <= i < |evs| ==> evs[i].Change?
    ensures Run(s, evs).data == ApplyChanges(s.data, evs)
    ensures Run(s, evs).touched == s.touched && Run(s, evs).status == s.status
    ensures Run(s, evs).pendingCompletions == s.pendingCompletions
    ensures Run(s, evs).pendingResets == s.pendingResets
    decreases |evs|
  {
    if evs != [] {
      StepChangeFacts(s, evs[0].field, evs[0].value);
      RunChangesKeep(Step(s, evs[0]), evs[1..]);
    }
  }

  /** Typing each value of `d` in, whatever was there before, leaves `d`. */
  lemma FillValues(data: Fields<string>, d: Fields<string>)
    ensures ApplyChanges(data, Fill(d)) == d
  {
    var evs := Fill(d);
    var d1 := data.Set(Name, d.name);
    var d2 := d1.Set(Phone, d.phone);
    var d3 := d2.Set(Email, d.email);
    var d4 := d3.Set(ServiceType, d.serviceType);
    var d5 := d4.Set(Message, d.message);
    assert ApplyChanges(data, evs) == ApplyChanges(d1, evs[1..]);
    assert ApplyChanges(d1, evs[1..]) == ApplyChanges(d2, evs[2..]);
    assert ApplyChanges(d2, evs[2..]) == ApplyChanges(d3, evs[3..]);
    assert ApplyChanges(d3, evs[3..]) == ApplyChanges(d4, evs[4..]);
    assert ApplyChanges(d4, evs[4..]) == ApplyChanges(d5, evs[5..]);
    FieldsExtensional(d5, d);
  }

  /** Filling the form replaces every value and nothing else. */
  lemma FillSetsData(s: FormState, d: Fields<string>)
    ensures Run(s, Fill(d)).data == d
    ensures Run(s, Fill(d)).touched == s.touched
    ensures Run(s, Fill(d)).status == s.status
    ensures Run(s, Fill(d)).pendingCompletions == s.pendingCompletions
    ensures Run(s, Fill(d)).pendingResets == s.pendingResets
  {
    RunChangesKeep(s, Fill(d));
    FillValues(s.data, d);
  }

  /** As written, the status-reset timer of an earlier success is never
      cancelled. If the user submits again before it fires, it sets the
      status back to idle while the new submission is in flight, which
      re-enables the submit button, and a further submit starts a second
      concurrent submission. */
  lemma StaleResetAllowsSecondSubmission(s: FormState)
    requires s.status == Success && s.pendingResets > 0 && FormValid(s.data)
    ensures Run(s, [Submit, ResetTimer]).status == Idle
    ensures Run(s, [Submit, ResetTimer]).pendingCompletions == s.pendingCompletions + 1
    ensures Run(s, [Submit, ResetTimer, Submit]).pendingCompletions == s.pendingCompletions + 2
  {
    var s2 := StaleResetReopens(s);
    StepSubmitValidFacts(s2);
    RunAppend(s, [Submit, ResetTimer], [Submit]);
    assert [Submit, ResetTimer] + [Submit] == [Submit, ResetTimer, Submit];
    RunSingle(s2, Submit);
  }

  /** The first half of the trace: a second submission starts, then the old
      reset fires; the result is that state. */
  lemma StaleResetReopens(s: FormState) returns (s2: FormState)
    requires s.status == Success && s.pendingResets > 0 && FormValid(s.data)
    ensures s2 == Run(s, [Submit, ResetTimer])
    ensures s2.status == Idle && s2.data == s.data
    ensures s2.pendingCompletions == s.pendingCompletions + 1
  {
    var s1 := Step(s, Submit);
    StepSubmitValidFacts(s);
    s2 := Step(s1, ResetTimer);
    StepResetFacts(s1);
    assert [Submit, ResetTimer] == [Submit] + [ResetTimer];
    RunCons(s, Submit, [ResetTimer]);
    RunSingle(s1, ResetTimer);
  }

  /** A first submission from a fresh form ends in success with a
      pending reset. */
  lemma FirstSubmissionSucceeds(d: Fields<string>) returns (s3: FormState)
    requires FormValid(d)
    ensures s3 == Run(Initial, Fill(d) + [Submit, CompletionTimer])
    ensures s3.status == Success && s3.pendingResets > 0 && s3.pendingCompletions == 0
  {
    FillSetsData(Initial, d);
    var s1 := Run(Initial, Fill(d));
    var s2 := Step(s1, Submit);
    StepSubmitValidFacts(s1);
    s3 := Step(s2, CompletionTimer);
    StepCompletionFacts(s2);
    assert [Submit, CompletionTimer] == [Submit] + [CompletionTimer];
    RunCons(s1, Submit, [CompletionTimer]);
    RunSingle(s2, CompletionTimer);
    RunAppend(Initial, Fill(d), [Submit, CompletionTimer]);
  }

  /** The trace the stale timer needs is reachable from a fresh form with
      any valid data: fill, submit, let it complete, fill again. */
  lemma StaleResetReachable(d: Fields<string>)
    requires FormValid(d)
    ensures Run(Initial, Fill(d) + [Submit, CompletionTimer] + Fill(d)).status == Success
    ensures Run(Initial, Fill(d) + [Submit, CompletionTimer] + Fill(d)).pendingResets > 0
    ensures Run(Initial, Fill(d) + [Submit, CompletionTimer] + Fill(d)).data == d
    ensures Run(Initial, Fill(d) + [Submit, CompletionTimer] + Fill(d)).pendingCompletions == 0
  {
    var s3 := FirstSubmissionSucceeds(d);
    FillSetsData(s3, d);
    RunAppend(Initial, Fill(d) + [Submit, CompletionTimer], Fill(d));
  }

  /** The corrected step: a submission that starts also cancels the pending
      status reset. Everything the user sees is as in `Step`, and every
      other event is exactly as in `Step`. */
  function StepFixed(s: FormState, e: Event): (r: FormState)
    ensures r.data == Step(s, e).data && r.touched == Step(s, e).touched && r.errors == Step(s, e).errors
    ensures r.status == Step(s, e).status && r.pendingCompletions == Step(s, e).pendingCompletions
    ensures e.Submit? && s.status != Submitting && FormValid(s.data) ==> r.pendingResets == 0
    ensures !(e.Submit? && s.status != Submitting && FormValid(s.data)) ==> r == Step(s, e)
  {
    var r := Step(s, e);
    if e.Submit? && s.status != Submitting && FormValid(s.data) then r.(pendingResets := 0) else r
  }

  function RunFixed(s: FormState, events: seq<Event>): FormState
    decreases |events|
  {
    if events == [] then s else RunFixed(StepFixed(s, events[0]), events[1..])
  }

  /** A submission is in flight exactly while the status is `submitting`,
      there is at most one, and a pending reset means the status is `success`. */
  ghost predicate InFlightConsistent(s: FormState)
  {
    && (s.pendingCompletions > 0 <==> s.status == Submitting)
    && s.pendingCompletions <= 1
    && (s.pendingResets > 0 ==> s.status == Success)
    && s.pendingResets <= 1
  }

  lemma StepFixedKeepsInFlight(s: FormState, e: Event)
    requires InFlightConsistent(s)
    ensures InFlightConsistent(StepFixed(s, e))
  {
  }

  /** The corrected step keeps the submission bookkeeping consistent, and
      also every invariant `RunInvariants` states of the step as written. */
  lemma {:induction false} RunFixedKeepsInFlight(s: FormState, events: seq<Event>)
    requires InFlightConsistent(s) && ErrorsAgree(s) && s.status != Error
    ensures InFlightConsistent(RunFixed(s, events))
    ensures ErrorsAgree(RunFixed(s, events)) && RunFixed(s, events).status != Error
    decreases |events|
  {
    if events != [] {
      StepFixedKeepsInFlight(s, events[0]);
      StepKeepsErrorsAgree(s, events[0]);
      RunFixedKeepsInFlight(StepFixed(s, events[0]), events[1..]);
    }
  }

  /** With the reset cancelled, from a fresh form there is never more than
      one submission in flight, and while there is one the status is
      `submitting`, so the submit button stays disabled. */
  lemma FixedSingleSubmission(events: seq<Event>)
    ensures RunFixed(Initial, events).pendingCompletions <= 1
    ensures RunFixed(Initial, events).pendingCompletions > 0 ==> RunFixed(Initial, events).status == Submitting
    ensures ErrorsAgree(RunFixed(Initial, events)) && RunFixed(Initial, events).status != Error
  {
    RunFixedKeepsInFlight(Initial, events);
  }
}
