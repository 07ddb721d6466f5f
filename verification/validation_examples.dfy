/** Concrete inputs and the verdicts the validator gives them, including the
    values the end-to-end tests type into the form. */
module ValidationExamples {
  import opened Options
  import opened Seqs
  import opened Text
  import opened FormFields
  import opened Validation

  /** `n` copies of the letter a. */
  function Letters(n: nat): (r: string)
    ensures |r| == n
    ensures forall i :: 0 <= i < n ==> r[i] == 'a'
  {
    seq(n, _ => 'a')
  }

  lemma LettersFacts(n: nat)
    requires n > 0
    ensures !IsBlank(Letters(n))
    ensures Utf16Length(Letters(n)) == n
    ensures n >= NameMinLength ==> (ValidName(Letters(n)) <==> n <= NameMaxLength)
  {
    assert !IsWhitespace(Letters(n)[0]);
    assert forall i :: 0 <= i < n ==> IsBmp(Letters(n)[i]) && IsNameChar(Letters(n)[i]);
    Utf16LengthIsLength(Letters(n));
  }

  lemma NameJohnDoe()
    ensures ValidateName("John Doe") == None
  {
    var j := "John Doe";
    assert !IsWhitespace(j[0]);
    assert forall i :: 0 <= i < |j| ==> IsNameChar(j[i]);
    assert ValidName(j);
  }

  lemma NameTooShortExample()
    ensures ValidateName("J") == Some(NameTooShort)
  {
    var j := "J";
    assert !IsWhitespace(j[0]) && IsBmp(j[0]);
    assert Utf16Length(j) == 1;
  }

  lemma NameWithDigits()
    ensures ValidateName("John123") == Some(NameNotLetters)
  {
    var d := "John123";
    assert !IsWhitespace(d[0]);
    assert forall i :: 0 <= i < |d| ==> IsBmp(d[i]);
    assert !IsNameChar(d[4]);
    assert !ValidName(d);
  }

  lemma NameLengthLimits()
    ensures ValidateName(Letters(100)) == None
    ensures ValidateName(Letters(101)) == Some(NameTooLong)
  {
    LettersFacts(100);
    LettersFacts(101);
  }

  lemma PhoneTooShort()
    ensures ValidatePhone("123") == Some(PhoneInvalid)
  {
    var p := "123";
    assert !IsWhitespace(p[0]);
    PhoneTooFewCharacters(p);
  }

  lemma PhoneInternational()
    ensures ValidatePhone("+421123456789") == None
  {
    PhoneDigitsAccepted("+421123456789");
  }

  lemma PhoneEightDigits()
    ensures ValidatePhone("00000000") == None
  {
    PhoneDigitsAccepted("00000000");
  }

  lemma EmailWithoutAt()
    ensures ValidateEmail("invalid-email") == Some(EmailInvalid)
  {
    var bad := "invalid-email";
    assert !IsBlank(bad) by { assert !IsWhitespace(bad[0]); }
    assert forall i :: 0 <= i < |bad| ==> bad[i] != '@';
    assert !MatchesEmailRegex(bad);
  }

  lemma EmailPlain()
    ensures ValidateEmail("test@example.com") == None
  {
    var good := "test@example.com";
    assert good[4] == '@' && good[12] == '.';
    assert forall k :: 0 <= k < |good| && k != 4 ==> IsEmailChar(good[k]);
    assert MatchesEmailRegex(good);
  }

  lemma ServiceTypeExamples()
    ensures ValidateServiceType("") == Some(ServiceTypeMissing)
    ensures ValidateServiceType(" ") == None
    ensures ValidateServiceType("not-an-option") == None
  {
  }

  /** The message length boundaries: 9 fails, 10 and 500 pass, 501 fails. */
  lemma MessageBoundaries()
    ensures ValidateMessage(Letters(9)) == Some(MessageTooShort)
    ensures ValidateMessage(Letters(10)) == None
    ensures ValidateMessage(Letters(500)) == None
    ensures ValidateMessage(Letters(501)) == Some(MessageTooLong)
  {
    LettersFacts(9);
    LettersFacts(10);
    LettersFacts(500);
    LettersFacts(501);
  }

  lemma NameTestUser()
    ensures ValidateName("Test User") == None
  {
    var t := "Test User";
    assert !IsWhitespace(t[0]);
    assert forall i :: 0 <= i < |t| ==> IsNameChar(t[i]);
    assert ValidName(t);
  }

  lemma MessageTestText()
    ensures ValidateMessage("This is a test message.") == None
  {
    var m := "This is a test message.";
    assert !IsWhitespace(m[0]);
    assert forall i :: 0 <= i < |m| ==> IsBmp(m[i]);
    MessageBoundsInCharacters(m);
  }

  lemma MessageTestLongText()
    ensures ValidateMessage("This is a test message for E2E testing.") == None
  {
    var m := "This is a test message for E2E testing.";
    assert !IsWhitespace(m[0]);
    assert forall i :: 0 <= i < |m| ==> IsBmp(m[i]);
    MessageBoundsInCharacters(m);
  }

  /** The submission the end-to-end tests type in, with a service type chosen. */
  const Sample: Fields<string> :=
    Fields("Test User", "+421123456789", "test@example.com", "mobile", "This is a test message.")

  /** A record passes when each of its five values passes its own rule. */
  lemma FormValidOfParts(d: Fields<string>)
    requires ValidateName(d.name) == None && ValidatePhone(d.phone) == None
    requires ValidateEmail(d.email) == None && ValidateServiceType(d.serviceType) == None
    requires ValidateMessage(d.message) == None
    ensures FormValid(d)
  {
  }

  lemma SampleValid()
    ensures FormValid(Sample)
  {
    NameTestUser();
    PhoneInternational();
    EmailPlain();
    MessageTestText();
    FormValidOfParts(Sample);
  }
}
