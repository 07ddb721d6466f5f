/** The contact form's field validator (`validateField`) and the aggregate
    pass over all five fields (`validateForm`). Each regular expression
    `validateField` tests is restated as a predicate over characters. */
module Validation {
  import opened Options
  import opened Seqs
  import opened Text
  import opened FormFields

  const NameMinLength: nat := 2
  const NameMaxLength: nat := 100
  const MessageMinLength: nat := 10
  const MessageMaxLength: nat := 500
  const PhoneMinDigits: nat := 8
  const PhoneMaxDigits: nat := 15

  /** The failure classes of `validateField`, one per message it can return. */
  datatype FieldError =
    | NameRequired | NameTooShort | NameTooLong | NameNotLetters
    | PhoneRequired | PhoneInvalid
    | EmailRequired | EmailInvalid
    | ServiceTypeMissing
    | MessageRequired | MessageTooShort | MessageTooLong

  /** The field an error belongs to. */
  function ErrorField(e: FieldError): Field
  {
    match e
    case NameRequired | NameTooShort | NameTooLong | NameNotLetters => Name
    case PhoneRequired | PhoneInvalid => Phone
    case EmailRequired | EmailInvalid => Email
    case ServiceTypeMissing => ServiceType
    case MessageRequired | MessageTooShort | MessageTooLong => Message
  }

  /** The message `validateField` returns for each error class. */
  function ErrorText(e: FieldError): string
  {
    match e
    case NameRequired => "Name is required"
    case NameTooShort => "Name must be at least 2 characters"
    case NameTooLong => "Name must be less than 100 characters"
    case NameNotLetters => "Name can only contain letters"
    case PhoneRequired => "Phone number is required"
    case PhoneInvalid => "Please enter a valid phone number"
    case EmailRequired => "Email is required"
    case EmailInvalid => "Please enter a valid email address"
    case ServiceTypeMissing => "Please select a service type"
    case MessageRequired => "Message is required"
    case MessageTooShort => "Message must be at least 10 characters"
    case MessageTooLong => "Message must be less than 500 characters"
  }

  /** Distinct error classes have distinct messages, so keeping the class
      instead of the text loses nothing. */
  lemma ErrorTextInjective(a: FieldError, b: FieldError)
    requires ErrorText(a) == ErrorText(b)
    ensures a == b
  {
  }

  /** The error a blank value gets, for the four fields that trim. */
  function RequiredError(f: Field): FieldError
  {
    match f
    case Name => NameRequired
    case Phone => PhoneRequired
    case Email => EmailRequired
    case ServiceType => ServiceTypeMissing
    case Message => MessageRequired
  }

  // ----- name -----

  /** The class `[a-zA-Z\sÀ-ſ]`. */
  predicate IsNameChar(c: char)
  {
    IsAsciiLetter(c) || IsWhitespace(c) || (0xC0 <= c as int <= 0x17F)
  }

  /** What a valid name is, with lengths in characters. */
  predicate ValidName(v: string)
  {
    && !IsBlank(v)
    && NameMinLength <= |v| <= NameMaxLength
    && forall i :: 0 <= i < |v| ==> IsNameChar(v[i])
  }

  /** Name characters are all in the Basic Multilingual Plane, so a string
      of them has as many UTF-16 code units as characters. */
  lemma NameCharsLength(v: string)
    ensures (forall i :: 0 <= i < |v| ==> IsNameChar(v[i])) ==> Utf16Length(v) == |v|
  {
    Utf16LengthIsLength(v);
    if forall i :: 0 <= i < |v| ==> IsNameChar(v[i]) {
      assert forall i :: 0 <= i < |v| ==> IsBmp(v[i]);
    }
  }

  function ValidateName(v: string): (r: Option<FieldError>)
    ensures r == Some(NameRequired) <==> IsBlank(v)
    ensures r == None <==> ValidName(v)
    ensures r == Some(NameTooShort) <==> !IsBlank(v) && Utf16Length(v) < NameMinLength
    ensures r == Some(NameTooLong) <==> !IsBlank(v) && Utf16Length(v) > NameMaxLength
    ensures r.Some? ==> ErrorField(r.value) == Name
  {
    var letters := forall i :: 0 <= i < |v| ==> IsNameChar(v[i]);
    NameCharsLength(v);
    if Blanked(v) then Some(NameRequired)
    else if Utf16Length(v) < NameMinLength then Some(NameTooShort)
    else if Utf16Length(v) > NameMaxLength then Some(NameTooLong)
    else if !letters then Some(NameNotLetters)
    else None
  }

  // ----- phone -----

  /** The class `[\s\-()]` of characters removed before the phone pattern is tried. */
  predicate IsPhoneSeparator(c: char)
  {
    IsWhitespace(c) || c == '-' || c == '(' || c == ')'
  }

  /** The characters the phone cleaner keeps. */
  predicate KeptInPhone(c: char)
  {
    !IsPhoneSeparator(c)
  }

  /** `value.replace(/[\s\-()]/g, '')` */
  function StripPhone(v: string): (r: string)
    ensures forall i :: 0 <= i < |r| ==> !IsPhoneSeparator(r[i])
    ensures forall c :: multiset(r)[c] == if IsPhoneSeparator(c) then 0 else multiset(v)[c]
    ensures IsSubsequence(r, v)
  {
    FilterMultisetAll(KeptInPhone, v);
    FilterIsSubsequence(KeptInPhone, v);
    Filter(KeptInPhone, v)
  }

  /** `[\d]{8,15}` */
  predicate IsDigitRun(d: string)
  {
    PhoneMinDigits <= |d| <= PhoneMaxDigits && forall i :: 0 <= i < |d| ==> IsAsciiDigit(d[i])
  }

  /** `^\+?[\d]{8,15}$` */
  predicate MatchesPhonePattern(c: string)
  {
    IsDigitRun(c) || (|c| > 0 && c[0] == '+' && IsDigitRun(c[1..]))
  }

  /** Stripping a blank value leaves nothing. */
  lemma {:induction false} StripBlank(v: string)
    ensures IsBlank(v) ==> StripPhone(v) == []
  {
    if v != [] && IsBlank(v) {
      assert IsBlank(v[1..]) by {
        assert forall i :: 0 <= i < |v| - 1 ==> v[1..][i] == v[i + 1];
      }
      StripBlank(v[1..]);
      assert IsPhoneSeparator(v[0]);
    }
  }

  function ValidatePhone(v: string): (r: Option<FieldError>)
    ensures r == Some(PhoneRequired) <==> IsBlank(v)
    ensures r == None <==> MatchesPhonePattern(StripPhone(v))
    ensures r.Some? ==> ErrorField(r.value) == Phone
  {
    StripBlank(v);
    if Blanked(v) then Some(PhoneRequired)
    else if !MatchesPhonePattern(StripPhone(v)) then Some(PhoneInvalid)
    else None
  }

  /** A non-blank value shorter than eight characters cannot hold eight digits. */
  lemma PhoneTooFewCharacters(v: string)
    requires !IsBlank(v) && |v| < PhoneMinDigits
    ensures ValidatePhone(v) == Some(PhoneInvalid)
  {
  }

  /** An optional `+` followed by 8 to 15 digits is accepted as typed. */
  lemma PhoneDigitsAccepted(p: string)
    requires IsDigitRun(p) || (|p| > 0 && p[0] == '+' && IsDigitRun(p[1..]))
    ensures ValidatePhone(p) == None
  {
    assert forall i :: 0 <= i < |p| ==> KeptInPhone(p[i]) by {
      if !IsDigitRun(p) {
        assert forall i :: 1 <= i < |p| ==> p[i] == p[1..][i - 1];
      }
    }
    FilterIdentity(KeptInPhone, p);
  }

  /** The global replace removes a separator wherever it stands. */
  lemma StripDropsSeparator(x: string, c: char, y: string)
    requires IsPhoneSeparator(c)
    ensures StripPhone(x + [c] + y) == StripPhone(x + y)
  {
    assert Filter(KeptInPhone, [c]) == [] by {
      assert [c][1..] == [];
    }
    FilterAppend(KeptInPhone, x + [c], y);
    FilterAppend(KeptInPhone, x, [c]);
    FilterAppend(KeptInPhone, x, y);
    assert Filter(KeptInPhone, x) + [] == Filter(KeptInPhone, x);
  }

  /** Inserting a character keeps a non-blank value non-blank. */
  lemma InsertKeepsNonBlank(x: string, c: char, y: string)
    requires !IsBlank(x + y)
    ensures !IsBlank(x + [c] + y)
  {
    var w := x + y;
    var i :| 0 <= i < |w| && !IsWhitespace(w[i]);
    if i < |x| {
      assert (x + [c] + y)[i] == w[i];
    } else {
      assert (x + [c] + y)[i + 1] == w[i];
    }
  }

  /** Deleting one separator (whitespace, `-`, `(`, `)`) anywhere does not
      change the verdict, unless what remains is blank. */
  lemma PhoneSeparatorIgnored(x: string, c: char, y: string)
    requires IsPhoneSeparator(c) && !IsBlank(x + y)
    ensures ValidatePhone(x + [c] + y) == ValidatePhone(x + y)
  {
    StripDropsSeparator(x, c, y);
    InsertKeepsNonBlank(x, c, y);
  }

  // ----- email -----

  /** The class `[^\s@]`. */
  predicate IsEmailChar(c: char)
  {
    !IsWhitespace(c) && c != '@'
  }

  /** `^[^\s@]+@[^\s@]+\.[^\s@]+$`, read as regular-expression semantics:
      an `@` at position i and a `.` at position j split the string into
      three non-empty runs of `[^\s@]`. */
  ghost predicate MatchesEmailRegex(v: string)
  {
    exists i, j :: 0 < i && i + 1 < j && j + 1 < |v| && v[i] == '@' && v[j] == '.'
      && forall k :: 0 <= k < |v| && k != i ==> IsEmailChar(v[k])
  }

  /** A `.` that is neither the first nor the last character. */
  predicate HasInnerDot(d: string)
  {
    exists m :: 0 < m < |d| - 1 && d[m] == '.'
  }

  /** The shape the validator accepts: no whitespace, exactly one `@`, a
      non-empty part before it, and a domain with an inner `.`. */
  predicate IsEmailShape(v: string)
  {
    && (forall k :: 0 <= k < |v| ==> !IsWhitespace(v[k]))
    && multiset(v)['@'] == 1
    && exists i :: 0 < i < |v| && v[i] == '@' && HasInnerDot(v[i + 1..])
  }

  /** `x` occurs once in `v`, at position `i`, exactly when no other position holds it. */
  lemma OccursOnceAt(v: string, x: char, i: int)
    requires 0 <= i < |v| && v[i] == x
    ensures multiset(v)[x] == 1 <==> forall k :: 0 <= k < |v| && k != i ==> v[k] != x
  {
    var a, b := v[..i], v[i + 1..];
    assert v == a + [x] + b;
    assert multiset(v)[x] == multiset(a)[x] + 1 + multiset(b)[x];
    if multiset(v)[x] == 1 {
      forall k | 0 <= k < |v| && k != i
        ensures v[k] != x
      {
        if k < i {
          assert v[k] == a[k] && a[k] in multiset(a);
        } else {
          assert v[k] == b[k - i - 1] && b[k - i - 1] in multiset(b);
        }
      }
    } else {
      if x in a {
        var k :| 0 <= k < |a| && a[k] == x;
        assert v[k] == x;
      } else {
        assert x in b;
        var k :| 0 <= k < |b| && b[k] == x;
        assert v[i + 1 + k] == x;
      }
    }
  }

  /** The explicit shape is exactly the language of the email pattern
      `^[^\s@]+@[^\s@]+\.[^\s@]+$`. */
  lemma EmailShapeIffRegex(v: string)
    ensures IsEmailShape(v) <==> MatchesEmailRegex(v)
  {
    if IsEmailShape(v) {
      var i :| 0 < i < |v| && v[i] == '@' && HasInnerDot(v[i + 1..]);
      var d := v[i + 1..];
      var m :| 0 < m < |d| - 1 && d[m] == '.';
      OccursOnceAt(v, '@', i);
      var j := i + 1 + m;
      assert v[j] == '.';
      assert forall k :: 0 <= k < |v| && k != i ==> IsEmailChar(v[k]);
    }
    if MatchesEmailRegex(v) {
      var i, j :| 0 < i && i + 1 < j && j + 1 < |v| && v[i] == '@' && v[j] == '.'
        && forall k :: 0 <= k < |v| && k != i ==> IsEmailChar(v[k]);
      OccursOnceAt(v, '@', i);
      var d := v[i + 1..];
      assert d[j - i - 1] == '.';
      assert HasInnerDot(d);
    }
  }

  function ValidateEmail(v: string): (r: Option<FieldError>)
    ensures r == Some(EmailRequired) <==> IsBlank(v)
    ensures r == None <==> MatchesEmailRegex(v)
    ensures r.Some? ==> ErrorField(r.value) == Email
  {
    EmailShapeIffRegex(v);
    if Blanked(v) then Some(EmailRequired)
    else if !IsEmailShape(v) then Some(EmailInvalid)
    else None
  }

  // ----- service type -----

  /** `if (!value)`: only the empty string fails; there is no trim and no
      check against the listed options. */
  function ValidateServiceType(v: string): (r: Option<FieldError>)
    ensures r == None <==> |v| > 0
    ensures r.Some? ==> ErrorField(r.value) == ServiceType
  {
    if v == "" then Some(ServiceTypeMissing) else None
  }

  // ----- message -----

  /** The length rule for a non-blank message of `n` UTF-16 code units. */
  function MessageLengthError(n: nat): (r: Option<FieldError>)
    ensures r == None <==> MessageMinLength <= n <= MessageMaxLength
    ensures r == Some(MessageTooShort) <==> n < MessageMinLength
    ensures r == Some(MessageTooLong) <==> n > MessageMaxLength
    ensures r.Some? ==> ErrorField(r.value) == Message
  {
    if n < MessageMinLength then Some(MessageTooShort)
    else if n > MessageMaxLength then Some(MessageTooLong)
    else None
  }

  function ValidateMessage(v: string): (r: Option<FieldError>)
    ensures r == Some(MessageRequired) <==> IsBlank(v)
    ensures r == None <==> !IsBlank(v) && MessageMinLength <= Utf16Length(v) <= MessageMaxLength
    ensures r == Some(MessageTooShort) <==> !IsBlank(v) && Utf16Length(v) < MessageMinLength
    ensures r == Some(MessageTooLong) <==> !IsBlank(v) && Utf16Length(v) > MessageMaxLength
    ensures r.Some? ==> ErrorField(r.value) == Message
  {
    if Blanked(v) then Some(MessageRequired) else MessageLengthError(Utf16Length(v))
  }

  /** For text without astral characters the message bounds are in characters. */
  lemma MessageBoundsInCharacters(v: string)
    requires forall i :: 0 <= i < |v| ==> IsBmp(v[i])
    ensures ValidateMessage(v) == None <==> !IsBlank(v) && MessageMinLength <= |v| <= MessageMaxLength
  {
    Utf16LengthIsLength(v);
  }

  // ----- dispatch -----

  /** The per-field rule. */
  function Validate(f: Field, v: string): (r: Option<FieldError>)
    ensures f != ServiceType && IsBlank(v) ==> r == Some(RequiredError(f))
    ensures r.Some? ==> ErrorField(r.value) == f
  {
    match f
    case Name => ValidateName(v)
    case Phone => ValidatePhone(v)
    case Email => ValidateEmail(v)
    case ServiceType => ValidateServiceType(v)
    case Message => ValidateMessage(v)
  }

  /** `validateField(name, value)`: the switch on the key; a key that names
      none of the five fields never produces an error. */
  function ValidateField(key: string, v: string): (r: Option<FieldError>)
    ensures forall f :: Key(f) == key ==> r == Validate(f, v)
    ensures (forall f :: Key(f) != key) ==> r == None
  {
    match FieldOf(key)
    case Some(f) => Validate(f, v)
    case None => None
  }

  /** Looking a field's own key up dispatches to that field's rule. */
  lemma KeyDispatch(f: Field, v: string)
    ensures ValidateField(Key(f), v) == Validate(f, v)
  {
  }

  // ----- the whole form -----

  /** Every field passes its rule. */
  predicate FormValid(data: Fields<string>)
  {
    forall f :: f in FormKeys ==> Validate(f, data.Get(f)) == None
  }

  /** The error map `validateForm` builds: one entry per failing field. */
  function FormErrors(data: Fields<string>): (r: map<Field, FieldError>)
    ensures forall f :: f in r <==> Validate(f, data.Get(f)).Some?
    ensures forall f :: f in r ==> Some(r[f]) == Validate(f, data.Get(f))
  {
    FormKeysEnumerateFields();
    map f | f in FormKeys && Validate(f, data.Get(f)).Some? :: Validate(f, data.Get(f)).value
  }

  /** `validateForm()`: visits the keys in order, records each failing
      field's error, and reports whether none failed. */
  method ValidateForm(data: Fields<string>) returns (isValid: bool, errors: map<Field, FieldError>)
    ensures isValid <==> forall f :: Validate(f, data.Get(f)) == None
    ensures forall f :: f in errors <==> Validate(f, data.Get(f)).Some?
    ensures forall f :: f in errors ==> Some(errors[f]) == Validate(f, data.Get(f))
    ensures isValid <==> errors == map[]
    ensures errors == FormErrors(data)
  {
    errors := map[];
    isValid := true;
    var n := 0;
    while n < |FormKeys|
      invariant 0 <= n <= |FormKeys|
      invariant forall f :: f in errors <==> KeyIndex(f) < n && Validate(f, data.Get(f)).Some?
      invariant forall f :: f in errors ==> Some(errors[f]) == Validate(f, data.Get(f))
      invariant isValid <==> errors == map[]
    {
      var key := FormKeys[n];
      var error := ValidateField(Key(key), data.Get(key));
      KeyDispatch(key, data.Get(key));
      if error.Some? {
        errors := errors[key := error.value];
        isValid := false;
      }
      assert KeyIndex(key) == n by {
        assert FormKeys[KeyIndex(key)] == key;
        FormKeysEnumerateFields();
      }
      n := n + 1;
    }
    FormErrorsUnique(data, errors);
    FormValidIffNoErrors(data);
  }

  /** A map with an entry exactly for each failing field, holding that
      field's error, is the aggregate error map. */
  lemma FormErrorsUnique(data: Fields<string>, errors: map<Field, FieldError>)
    requires forall f :: f in errors <==> Validate(f, data.Get(f)).Some?
    requires forall f :: f in errors ==> Some(errors[f]) == Validate(f, data.Get(f))
    ensures errors == FormErrors(data)
  {
    FormKeysEnumerateFields();
  }

  /** The predicate and the error map agree: the form is valid exactly when
      no field has an error entry. */
  lemma FormValidIffNoErrors(data: Fields<string>)
    ensures FormValid(data) <==> FormErrors(data) == map[]
    ensures FormValid(data) <==> forall f :: Validate(f, data.Get(f)) == None
  {
    FormKeysEnumerateFields();
    if !FormValid(data) {
      var f :| f in FormKeys && Validate(f, data.Get(f)) != None;
      assert f in FormErrors(data);
    }
  }
}
