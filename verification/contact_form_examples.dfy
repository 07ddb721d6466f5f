/** Whole traces of the contact form from a fresh page. */
module ContactFormExamples {
  import opened Options
  import opened FormFields
  import opened Validation
  import opened ContactForm
  import opened ValidationExamples

  /** Fill in valid data, submit, wait for success, fill in the same data
      again, submit, let the old reset fire, and submit once more. */
  function DoubleSubmitTrace(d: Fields<string>): seq<Event>
  {
    Fill(d) + [Submit, CompletionTimer] + Fill(d) + [Submit, ResetTimer, Submit]
  }

  /** As written, that trace leaves two submissions in flight. */
  lemma DoubleSubmitAsWritten(d: Fields<string>)
    requires FormValid(d)
    ensures Run(Initial, DoubleSubmitTrace(d)).pendingCompletions == 2
  {
    var prefix := Fill(d) + [Submit, CompletionTimer] + Fill(d);
    StaleResetReachable(d);
    StaleResetAllowsSecondSubmission(Run(Initial, prefix));
    RunAppend(Initial, prefix, [Submit, ResetTimer, Submit]);
  }

  /** With the reset cancelled, the same trace never has more than one. */
  lemma DoubleSubmitFixed(d: Fields<string>)
    ensures RunFixed(Initial, DoubleSubmitTrace(d)).pendingCompletions <= 1
  {
    FixedSingleSubmission(DoubleSubmitTrace(d));
  }

  /** The discrepancy occurs on the sample submission. */
  lemma DoubleSubmitSample()
    ensures Run(Initial, DoubleSubmitTrace(Sample)).pendingCompletions == 2
    ensures RunFixed(Initial, DoubleSubmitTrace(Sample)).pendingCompletions <= 1
  {
    SampleValid();
    DoubleSubmitAsWritten(Sample);
    DoubleSubmitFixed(Sample);
  }

  /** The values the submit test types in. It never selects a service
      type, so the select keeps the value of its placeholder option, "". */
  const TypedInTest: Fields<string> :=
    Fields("Test User", "+421123456789", "test@example.com", "", "This is a test message for E2E testing.")

  /** Filling in a record on a fresh form and submitting it starts a
      submission exactly when the record is valid. */
  lemma FillThenSubmit(d: Fields<string>)
    ensures FormValid(d) ==> Run(Initial, Fill(d) + [Submit]).status == Submitting
    ensures FormValid(d) ==> Run(Initial, Fill(d) + [Submit]).pendingCompletions == 1
    ensures !FormValid(d) ==> Run(Initial, Fill(d) + [Submit]).status == Idle
    ensures !FormValid(d) ==> Run(Initial, Fill(d) + [Submit]).pendingCompletions == 0
  {
    var s := Run(Initial, Fill(d));
    FillSetsData(Initial, d);
    RunAppend(Initial, Fill(d), [Submit]);
    RunSingle(s, Submit);
  }

  /** A record without a service type is never valid. */
  lemma NoServiceTypeInvalid(d: Fields<string>)
    requires d.serviceType == ""
    ensures !FormValid(d)
  {
    assert Validate(ServiceType, d.Get(ServiceType)) == Some(ServiceTypeMissing);
    FormKeysEnumerateFields();
  }

  /** As written, submitting those values fails on the service type: the
      status stays idle, no submission starts, and the submit button, which
      is disabled only while submitting, stays enabled. */
  lemma TestSubmitStaysIdle()
    ensures Run(Initial, Fill(TypedInTest) + [Submit]).status == Idle
    ensures Run(Initial, Fill(TypedInTest) + [Submit]).pendingCompletions == 0
  {
    NoServiceTypeInvalid(TypedInTest);
    FillThenSubmit(TypedInTest);
  }

  /** The same values with a service type chosen. */
  const TypedWithServiceType: Fields<string> := TypedInTest.(serviceType := "mobile")

  /** With a service type chosen, the submit starts the submission, and the
      button is disabled while it runs. */
  lemma TestSubmitWithServiceType()
    ensures Run(Initial, Fill(TypedWithServiceType) + [Submit]).status == Submitting
    ensures Run(Initial, Fill(TypedWithServiceType) + [Submit]).pendingCompletions == 1
  {
    NameTestUser();
    PhoneInternational();
    EmailPlain();
    MessageTestLongText();
    FormValidOfParts(TypedWithServiceType);
    FillThenSubmit(TypedWithServiceType);
  }
}
