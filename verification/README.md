# HubTrac site components: a Dafny model

This project models the parts of the HubTrac web site that carry logic.
The JSX around them is presentation and is not modelled.

- **The contact form** (`ContactForm.tsx`). It has a per-field validator (`validateField`) and an aggregate validator (`validateForm`). The component state holds values, touched flags, an error map and a four-valued submission status. It reacts to change, blur and submit events. The re-validation effect runs after every change of the values or touched flags. There are two timers: the 1500 ms placeholder submission and the 5000 ms status reset.
- **The cookie-consent banner** (`CookieConsent.tsx`). It holds a three-flag preference record and two presets: accept all, and necessary only. Toggles never touch `necessary`. A save writes both storage keys together. On mount, a load rule decides whether the banner is shown and which record is restored.
- **The toast queue** (`Toast.tsx`). `showToast` appends a toast and, when its duration is positive, schedules an auto-hide. `hideToast` filters the list by id.
- **The messenger deep links** (`Hero/MessengerButtons.tsx`). A number is reduced to its digits and `+` signs, then appended to one of three fixed URL prefixes.

Modules and files:

- `Options` (`option.dfy`), `Seqs` (`seqs.dfy`, order-preserving filtering and its laws) and `Text` (`text.dfy`, JavaScript whitespace, `trim` and UTF-16 `.length`) are shared support.
- `FormFields` (`form_fields.dfy`) holds the five fields and per-field records.
- `Validation` (`validation.dfy`) holds the validators. `ValidationExamples` (`validation_examples.dfy`) holds the concrete verdicts.
- `ContactForm` (`contact_form.dfy`) holds the form's state machine. `ContactFormExamples` (`contact_form_examples.dfy`) holds whole traces.
- `CookieConsent` (`cookie_consent.dfy`), `Toasts` (`toast.dfy`) and `Messenger` (`messenger.dfy`) cover the other three components.

Modelling choices:

- **Strings.** JavaScript strings are modelled as Dafny strings of Unicode scalar values.
  - `.length` is `Text.Utf16Length`, so a character outside the Basic Multilingual Plane counts twice, as it does in the browser.
  - `\s` and `trim` use one explicit set: the ECMAScript WhiteSpace and LineTerminator code points (`Text.IsWhitespace`).
  - `\d` is ASCII only.
- **Regular expressions** become predicates over characters.
  - The email pattern is kept as a regular-expression-style predicate (`MatchesEmailRegex`).
  - It is proved equal to the explicit shape the validator tests (`EmailShapeIffRegex`).
- **Errors.** An error message is kept as its class (`FieldError`). `ErrorText` gives the exact text, and distinct classes have distinct texts. An `undefined` entry in the error map is stored as a missing key; every reader of the map treats the two alike.
- **Timers** are counters of started, not yet fired callbacks. A timer event with nothing pending does nothing.
- **Disabled controls.** A submit while `submitting` does nothing, because the button is disabled. The banner's buttons and toggles act only while the banner is visible.
- **Parsing links.** The buttons only build links. `Messenger.ParseLink` is the inverse the builders are checked against: it returns the table index of the prefix a link starts with and the rest of the link, or `None`. `ParseGenerate` proves that every built link parses back, and `LinksDetermineMessenger` follows from it.
- **Storage** is a map from key to stored value. A record saved by the banner is stored as the record itself rather than as its JSON text.

Points where the code does less than its own declarations suggest; the model follows what the code does:

- **No `error` status.** `'error'` is one of the four statuses in the state declaration (src/components/ContactForm.tsx:45), and a banner renders for it (lines 580-591). No handler ever sets it, and `ReachableStates` proves it is never entered.
- **Service type.** The select offers five options (lines 173-179), but the validator (line 74) accepts any non-empty string. It does not trim.
- **Saved preferences.** On load, the stored record goes to `JSON.parse` (src/components/CookieConsent.tsx:40) with no `try`/`catch`. A malformed record therefore throws out of the mount effect rather than falling back to the defaults.
- **Name length.** A name of exactly 100 characters is accepted, although its error text reads "less than 100 characters".
- **Concurrent submissions.** The submit button is disabled while submitting (src/components/ContactForm.tsx:549), which shows that overlapping submissions were meant to be impossible. The uncancelled reset timer still allows them; see Findings.

## Model

| member | source | states |
|---|---|---|
| Seqs.Filter | src/components/Toast.tsx:53 | `filter` keeps only elements that pass the test, keeps every element that passes, and never lengthens the list (also the global `replace` of src/components/Hero/MessengerButtons.tsx:22 and src/components/ContactForm.tsx:64) |
| Text.Utf16Length | src/components/ContactForm.tsx:56 | `.length` lies between the character count and twice it |
| Text.Utf16LengthIsLength | src/components/ContactForm.tsx:56 | `.length` equals the character count exactly when no character is astral |
| Text.TrimStart | src/components/ContactForm.tsx:55 | the result is a suffix of the input that starts with a non-whitespace character (or is empty), and everything dropped is whitespace |
| Text.TrimSlice | src/components/ContactForm.tsx:55 | the contract of `Text.Trim`: `trim()` returns a slice of the value with only whitespace before and after it, which is empty or starts and ends with a non-whitespace character |
| Text.TrimEnd | src/components/ContactForm.tsx:55 | the result is a prefix of the input that ends with a non-whitespace character (or is empty), and everything dropped is whitespace |
| Text.TrimEmptyIffBlank | src/components/ContactForm.tsx:55 | trimming leaves the empty string exactly when the value is whitespace only (the empty string included) |
| Text.Blanked | src/components/ContactForm.tsx:55 | `!value.trim()` holds exactly when the value is whitespace only |
| FormFields.FieldOf | src/components/ContactForm.tsx:53-85 | the switch on the key recognises exactly the five field names, each naming its own field |
| FormFields.FormKeysEnumerateFields | src/components/ContactForm.tsx:29-35 | `Object.keys(formData)` visits every field exactly once |
| FormFields.KeyIndex | src/components/ContactForm.tsx:29-35 | each field has a position in the key order, holding that field |
| Validation.ErrorTextInjective | src/components/ContactForm.tsx:52-86 | distinct error classes have distinct messages, so keeping the class loses nothing |
| Validation.NameCharsLength | src/components/ContactForm.tsx:56-58 | a string of name characters has as many UTF-16 units as characters |
| Validation.ValidateName | src/components/ContactForm.tsx:54-59 | "required" exactly for blank input; valid exactly for non-blank text of 2 to 100 characters drawn from letters, whitespace and U+00C0..U+017F; too short or too long exactly by UTF-16 length |
| Validation.StripPhone | src/components/ContactForm.tsx:64 | the cleaned value holds no whitespace, `-`, `(` or `)`, holds every other character as often as the value does, and keeps them in their order |
| Validation.StripBlank | src/components/ContactForm.tsx:62-64 | removing separators from a blank value leaves nothing |
| Validation.ValidatePhone | src/components/ContactForm.tsx:61-66 | "required" exactly for blank input; valid exactly when the value with whitespace, `-`, `(` and `)` removed is an optional `+` and 8 to 15 ASCII digits |
| Validation.EmailShapeIffRegex | src/components/ContactForm.tsx:70 | the explicit shape (no whitespace, one `@`, a non-empty local part, an inner `.` in the domain) is exactly the language of the email pattern |
| Validation.ValidateEmail | src/components/ContactForm.tsx:68-71 | "required" exactly for blank input; valid exactly when the value matches the email pattern |
| Validation.ValidateServiceType | src/components/ContactForm.tsx:73-75 | only the empty string fails |
| Validation.ValidateMessage | src/components/ContactForm.tsx:77-81 | "required" exactly for blank input; valid exactly for non-blank text of 10 to 500 UTF-16 units; too short exactly below 10 units and too long exactly above 500 |
| Validation.MessageLengthError | src/components/ContactForm.tsx:79-80 | the length rule alone: too short exactly below 10 units, too long exactly above 500, no error exactly in between; every such error belongs to the message field |
| Validation.MessageBoundsInCharacters | src/components/ContactForm.tsx:79-80 | for text without astral characters the message bounds are in characters |
| Validation.Validate | src/components/ContactForm.tsx:52-86 | every trimmed field reports its "required" error on blank input, and every error belongs to the field it was computed for |
| Validation.ValidateField | src/components/ContactForm.tsx:52-86 | a field's key gets that field's rule; any other key never yields an error |
| Validation.KeyDispatch | src/components/ContactForm.tsx:94 | looking a field's own key up applies that field's rule |
| Validation.FormErrorsUnique | src/components/ContactForm.tsx:90-99 | a map with an entry exactly for each failing field, holding its error, is the aggregate error map |
| Validation.FormErrors | src/components/ContactForm.tsx:90-99 | the aggregate error map has an entry exactly for each field that fails its rule, holding that field's error |
| Validation.ValidateForm | src/components/ContactForm.tsx:89-103 | the result is valid exactly when every field passes; the error map has an entry exactly for each failing field, holding that field's error; valid exactly when the map is empty |
| Validation.FormValidIffNoErrors | src/components/ContactForm.tsx:89-103 | the form is valid exactly when the aggregate error map is empty |
| ValidationExamples.NameTooShortExample | src/components/ContactForm.tsx:56 | "J" is too short |
| ValidationExamples.NameWithDigits | src/components/ContactForm.tsx:58 | "John123" has the right length but is rejected as not letters |
| ValidationExamples.NameLengthLimits | src/components/ContactForm.tsx:57 | a 100-letter name passes and a 101-letter one is too long |
| ValidationExamples.NameJohnDoe | tests/e2e/contact-form.spec.ts:88 | "John Doe" is a valid name |
| ValidationExamples.NameTestUser | tests/e2e/contact-form.spec.ts:154 | "Test User" is a valid name |
| Validation.PhoneTooFewCharacters | src/components/ContactForm.tsx:65 | a non-blank value shorter than 8 characters is never a valid phone number |
| ValidationExamples.PhoneTooShort | src/components/ContactForm.tsx:65 | "123" is rejected |
| Validation.PhoneDigitsAccepted | src/components/ContactForm.tsx:65 | an optional `+` followed by 8 to 15 digits is accepted as typed |
| ValidationExamples.PhoneEightDigits | src/components/ContactForm.tsx:65 | eight digits are the shortest accepted number |
| Validation.StripDropsSeparator | src/components/ContactForm.tsx:64 | the cleaner drops one separator anywhere |
| Validation.InsertKeepsNonBlank | src/components/ContactForm.tsx:62 | inserting a character never makes non-blank text blank |
| Validation.PhoneSeparatorIgnored | src/components/ContactForm.tsx:64-65 | deleting a whitespace, `-`, `(` or `)` anywhere in a non-blank number does not change the verdict |
| ValidationExamples.PhoneInternational | tests/e2e/contact-form.spec.ts:133 | "+421123456789" is accepted |
| ValidationExamples.EmailWithoutAt | tests/e2e/contact-form.spec.ts:70 | "invalid-email" is rejected as invalid, not as missing |
| ValidationExamples.EmailPlain | tests/e2e/contact-form.spec.ts:134 | "test@example.com" is accepted |
| ValidationExamples.ServiceTypeExamples | src/components/ContactForm.tsx:74 | the empty choice fails; a single space and a value outside the option list pass |
| ValidationExamples.MessageBoundaries | src/components/ContactForm.tsx:79-80 | 9 letters are too short, 10 and 500 pass, 501 are too long |
| ValidationExamples.MessageTestLongText | tests/e2e/contact-form.spec.ts:135 | "This is a test message for E2E testing." is a valid message |
| ValidationExamples.MessageTestText | tests/e2e/contact-form.spec.ts:157 | "This is a test message." is a valid message |
| ValidationExamples.FormValidOfParts | src/components/ContactForm.tsx:93-99 | the form is valid when each of the five values passes its own rule |
| ValidationExamples.SampleValid | tests/e2e/contact-form.spec.ts:154-157 | the values the tests type in, with a service type chosen, make a valid form |
| ContactForm.SetError | src/components/ContactForm.tsx:110 | `{ ...prev, [key]: error }` sets that one entry and leaves all others |
| ContactForm.Revalidate | src/components/ContactForm.tsx:106-113 | after the effect, each touched field's entry is its current verdict, and every other entry is as before |
| ContactForm.RevalidateUntouched | src/components/ContactForm.tsx:106-113 | with no field touched the effect changes nothing |
| ContactForm.Settle | src/components/ContactForm.tsx:106-113 | the effect keeps values, touched flags, status and timers; each touched field's entry becomes its current verdict, and untouched fields keep theirs |
| ContactForm.StepChange | src/components/ContactForm.tsx:152-158 | a change sets only the named value; touched flags, status and timers are unchanged; touched fields get their new verdicts and other entries stay |
| ContactForm.StepBlur | src/components/ContactForm.tsx:160-166 | a blur marks only the named field touched; values, status and timers are unchanged; touched fields get their verdicts |
| ContactForm.SubmitEffectIdle | src/components/ContactForm.tsx:106-125 | after a submit, the re-validation effect finds every field touched and holding its verdict, and changes nothing |
| ContactForm.StepSubmit | src/components/ContactForm.tsx:115-131 | while submitting nothing happens. Otherwise every field becomes touched and its entry is its verdict. Valid data starts a submission: status submitting, one more completion timer. Invalid data leaves the status and timers alone |
| ContactForm.StepCompletion | src/components/ContactForm.tsx:135-146 | the submission timer brings success, clears values, touched flags and errors, and starts one reset timer; with none pending nothing happens |
| ContactForm.StepReset | src/components/ContactForm.tsx:148 | the reset timer sets idle and changes nothing else |
| ContactForm.Step | src/components/ContactForm.tsx:45 | no event ever enters the `error` status |
| ContactForm.FormErrorsLookup | src/components/ContactForm.tsx:93-99 | every entry of the aggregate map is that field's verdict |
| ContactForm.StepKeepsErrorsAgree | src/components/ContactForm.tsx:106-113 | every event keeps the error map equal to the verdicts of the touched fields |
| ContactForm.RunInvariants | src/components/ContactForm.tsx:106-150 | along any run the error map stays in step, and the `error` status is never entered |
| ContactForm.ReachableStates | src/components/ContactForm.tsx:322 | from a fresh form, a field's error is shown exactly when it is touched and fails its rule, and the status is never `error` |
| ContactForm.ErrorShown | src/components/ContactForm.tsx:322 | a message is shown only for a touched field with an entry; with the error map in step, exactly for a touched field failing its rule |
| ContactForm.IsFieldValid | src/components/ContactForm.tsx:169-171 | green only for a touched field without an entry and a non-blank value; with the error map in step, exactly for a touched, passing, non-blank field |
| ContactForm.FieldValidMeaning | src/components/ContactForm.tsx:169-171 | the green state means touched, passing and non-blank; for the trimmed fields, touched and passing |
| ContactForm.CheckShown | src/components/ContactForm.tsx:311-315 | the check icon shows only on a touched field other than the message, with no entry and a non-empty value; with the error map in step, exactly when that field also passes its rule |
| ContactForm.CheckMatchesBorder | src/components/ContactForm.tsx:413-422 | on the name, phone and e-mail fields the check icon shows exactly when the border is green |
| ContactForm.BlankServiceTypeCheckWithoutBorder | src/components/ContactForm.tsx:453-479 | a service type of one space passes its rule and shows no error; its border is not green, because `isFieldValid` trims, but the check icon, which does not trim, still shows; the select itself never offers that value |
| ContactForm.SubmitValid | src/components/ContactForm.tsx:127-131 | a submit on valid data starts a submission with an empty error map |
| ContactForm.CompletionLifecycle | src/components/ContactForm.tsx:135-149 | a started submission ends in success with a cleared form, and the reset then brings idle |
| ContactForm.SubmitInvalid | src/components/ContactForm.tsx:119-129 | a submit on invalid data keeps the status, touches every field and shows the error of every failing one |
| ContactForm.RunCons | src/components/ContactForm.tsx:115-166 | a run is its first event followed by the rest |
| ContactForm.RunAppend | src/components/ContactForm.tsx:115-166 | running two event sequences one after the other is running their concatenation |
| ContactForm.RunChangesKeep | src/components/ContactForm.tsx:152-158 | change events alone only set values, in order; they touch nothing and start or stop no timer |
| ContactForm.FillValues | src/components/ContactForm.tsx:152-158 | typing a value into each of the five fields leaves exactly those values, whatever was there before |
| ContactForm.FillSetsData | src/components/ContactForm.tsx:152-158 | typing a value into each field replaces all values and nothing else |
| ContactForm.StaleResetReopens | src/components/ContactForm.tsx:148 | as written, an earlier reset that fires after a new submission started sets idle while that submission is in flight |
| ContactForm.StaleResetAllowsSecondSubmission | src/components/ContactForm.tsx:131-149 | as written, a submit after that starts a second concurrent submission |
| ContactForm.FirstSubmissionSucceeds | src/components/ContactForm.tsx:131-148 | from a fresh form, filling in valid data, submitting and letting the timer fire gives success with a pending reset and nothing in flight |
| ContactForm.StaleResetReachable | src/components/ContactForm.tsx:135-149 | from a fresh form, any valid data reaches success with a pending reset and the same data filled in again |
| ContactForm.StepFixed | src/components/ContactForm.tsx:148 | the corrected step cancels the pending reset when a submission starts and otherwise behaves as written |
| ContactForm.StepFixedKeepsInFlight | src/components/ContactForm.tsx:131-149 | with the reset cancelled, a submission is in flight exactly while submitting, at most one at a time, and a pending reset only in success |
| ContactForm.RunFixedKeepsInFlight | src/components/ContactForm.tsx:131-149 | the corrected step keeps that bookkeeping, the error-map invariant and the absence of `error` along any run |
| ContactForm.FixedSingleSubmission | src/components/ContactForm.tsx:549 | with the reset cancelled, from a fresh form at most one submission is ever in flight, and the button stays disabled while it is |
| ContactFormExamples.DoubleSubmitAsWritten | src/components/ContactForm.tsx:131-149 | as written, fill, submit, success, fill, submit, old reset, submit leaves two submissions in flight |
| ContactFormExamples.DoubleSubmitFixed | src/components/ContactForm.tsx:131-149 | with the reset cancelled, the same trace never has more than one |
| ContactFormExamples.DoubleSubmitSample | tests/e2e/contact-form.spec.ts:154-157 | the discrepancy occurs with the values the tests type in, with a service type chosen |
| ContactFormExamples.FillThenSubmit | src/components/ContactForm.tsx:131-137 | on a fresh form, filling in a record and submitting starts one submission exactly when the record is valid, and otherwise leaves the form idle |
| ContactFormExamples.NoServiceTypeInvalid | src/components/ContactForm.tsx:73-75 | a record whose service type is the placeholder's "" is never valid |
| ContactFormExamples.TestSubmitStaysIdle | tests/e2e/contact-form.spec.ts:130-150 | as written, the values the submit test types in, with no service type selected, leave the form idle and the button enabled |
| ContactFormExamples.TestSubmitWithServiceType | tests/e2e/contact-form.spec.ts:130-150 | the same values with a service type chosen start the submission, so the button is disabled |
| CookieConsent.KeysDistinct | src/components/CookieConsent.tsx:18-19 | the two storage keys differ, so writing one never overwrites the other |
| CookieConsent.Mount | src/components/CookieConsent.tsx:30-43 | the banner is scheduled exactly when the consent value is missing or empty; with consent, a stored record replaces the defaults and a missing or empty one leaves them; storage is only read |
| CookieConsent.TestConsentSuppressesBanner | tests/e2e/contact-form.spec.ts:19 | the tests' pre-stored consent value "accepted" suppresses the banner and keeps the defaults |
| CookieConsent.BannerTimer | src/components/CookieConsent.tsx:35 | the delayed callback shows the banner once and changes nothing else |
| CookieConsent.Save | src/components/CookieConsent.tsx:67-84 | the consent key becomes "true" and the preferences key holds the record; every other key is kept; the draft becomes the record; the banner closes; analytics and marketing initialise exactly when accepted |
| CookieConsent.AcceptAll | src/components/CookieConsent.tsx:45-52 | commits and stores the all-true record, initialising both categories |
| CookieConsent.AcceptNecessary | src/components/CookieConsent.tsx:54-61 | commits and stores the necessary-only record, initialising nothing |
| CookieConsent.SaveDraft | src/components/CookieConsent.tsx:63-65 | commits and stores the current draft unchanged |
| CookieConsent.Toggle | src/components/CookieConsent.tsx:86-92 | toggling `necessary` changes nothing; toggling another flag flips it and only it |
| CookieConsent.ToggleTwice | src/components/CookieConsent.tsx:86-92 | toggling the same key twice restores the record |
| CookieConsent.ToggleCommutes | src/components/CookieConsent.tsx:86-92 | toggles of two keys commute |
| CookieConsent.Dismiss | src/components/CookieConsent.tsx:104 | the backdrop and the close button hide the banner and change neither the draft nor storage |
| CookieConsent.Step | src/components/CookieConsent.tsx:96 | while the banner is hidden only its timer acts; dismissing and toggling never write storage |
| CookieConsent.StepKeepsNecessary | src/components/CookieConsent.tsx:86-92 | no event clears the necessary flag in the draft or in the stored record |
| CookieConsent.RunKeepsNecessary | src/components/CookieConsent.tsx:24-28 | from a draft with the necessary flag set, any sequence of events keeps it set, in the draft and in storage |
| CookieConsent.MountKeepsNecessary | src/components/CookieConsent.tsx:38-41 | a load over storage whose record keeps the necessary flag yields a draft that keeps it |
| CookieConsent.SaveThenMount | src/components/CookieConsent.tsx:67-69 | a reload after a save restores exactly the saved record and schedules no banner |
| CookieConsent.FirstVisitKeepsNecessary | src/components/CookieConsent.tsx:30-43 | from a first visit, the necessary flag stays set through any clicks and a later reload |
| Toasts.ShowToast | src/components/Toast.tsx:38-50 | exactly one toast is appended at the end and the earlier ones are kept in order; a missing duration is 5000; the auto-hide for the new id is scheduled exactly when the duration is positive |
| Toasts.HideToast | src/components/Toast.tsx:52-54 | no toast with the id remains, every other toast remains as often as before, and nothing new appears |
| Toasts.HideKeepsOrder | src/components/Toast.tsx:53 | the remaining toasts keep their relative order |
| Toasts.HideAbsent | src/components/Toast.tsx:53 | hiding an id no toast carries leaves the list unchanged |
| Toasts.HideIdempotent | src/components/Toast.tsx:53 | hiding twice is hiding once |
| Toasts.HideCommutes | src/components/Toast.tsx:53 | hides of two ids commute |
| Toasts.HideAppend | src/components/Toast.tsx:53 | hiding acts on each part of a list separately |
| Toasts.ShowThenHide | src/components/Toast.tsx:42-47 | showing a toast with a fresh id and then hiding it restores the list |
| Toasts.HideOtherKeepsNewest | src/components/Toast.tsx:42-53 | hiding another id keeps a newly shown toast last |
| Messenger.Clean | src/components/Hero/MessengerButtons.tsx:22 | the cleaned number holds only digits and `+`, and each of those as often as the input does |
| Messenger.CleanIsSubsequence | src/components/Hero/MessengerButtons.tsx:22 | the cleaned number is a subsequence of the input |
| Messenger.CleanIdempotent | src/components/Hero/MessengerButtons.tsx:22 | cleaning twice is cleaning once |
| Messenger.CleanIdentity | src/components/Hero/MessengerButtons.tsx:22 | a number is left unchanged exactly when it holds only digits and `+` |
| Messenger.CleanKeepsLinkChar | src/components/Hero/MessengerButtons.tsx:22 | a digit or `+` stays where it stands between the cleaned parts around it |
| Messenger.CleanKeepsPlus | src/components/Hero/MessengerButtons.tsx:22 | a `+` is kept anywhere, not only in front |
| Messenger.CleanNothingKept | src/components/Hero/MessengerButtons.tsx:22 | a number without digits or `+` cleans to nothing |
| Messenger.CleanPrefixKept | src/components/Hero/MessengerButtons.tsx:22 | kept characters followed by dropped ones clean to the kept part |
| Messenger.GenerateLink | src/components/Hero/MessengerButtons.tsx:22-34 | a link is the messenger's prefix followed by the cleaned number |
| Messenger.PrefixesDiffer | src/components/Hero/MessengerButtons.tsx:22-34 | any two of the three prefixes differ at a position both have |
| Messenger.OtherPrefixAbsent | src/components/Hero/MessengerButtons.tsx:22-34 | a link of one messenger never starts with another's prefix |
| Messenger.ParseGenerate | src/components/Hero/MessengerButtons.tsx:17-36 | every link of the table, in its order WhatsApp, Viber, Telegram, parses back to its entry and the cleaned number |
| Messenger.LinksDetermineMessenger | src/components/Hero/MessengerButtons.tsx:17-36 | two buttons' links are equal only for the same button and the same cleaned number |
| Messenger.SiteNumber | src/components/Hero.tsx:19 | the site's placeholder number "+421 XXX XXX XXX" cleans to "+421" |

## Left out

- Rendering, styling and animation: the JSX, framer-motion and Tailwind classes, the character counters, the details panel of the banner (`showDetails`), and the toast container and items.
- Real time: every timer is an explicit event. None of ContactForm.tsx, CookieConsent.tsx and Toast.tsx calls `clearTimeout`, so a started timer always fires; what a callback does after its component has unmounted is not modelled.
- ContactForm.StepSubmit: the Submit event stands for a submit that reaches `handleSubmit`. The form has no `noValidate` (src/components/ContactForm.tsx:278) and the e-mail input is `type="email"` (line 395), so the browser runs its own e-mail check first. A non-empty value the browser rejects (such as "invalid-email") blocks the submit event, so the touched flags and errors stay as they were. A value such as "a@b" passes the browser's check and fails line 70. The browser's constraint validation and its sanitising of the e-mail value are not modelled.
- `JSON.parse` of text the banner never wrote: such a value under the preferences key yields `Unparsed` rather than a record. `JSON.stringify` is left out, because records are stored as records.
- Storage failures: the `localStorage` calls in CookieConsent.tsx (lines 32, 38 and 68-69) have no `try`/`catch`, so a storage that throws escapes the mount effect and `savePreferences`. The model's storage never fails.
- The `storage` event listener in ClientProviders.tsx: it is not part of this model.
- `console.log`, `gtag`, `window.open` and `window.location`: side effects. A save reports which initialisations it triggers (`Inits`). The `tel:` whitespace strip in Hero.tsx only feeds navigation.
- The toast id: `Math.random().toString(36)` is a parameter, and nothing assumes ids are unique. The `useToast` context plumbing is left out.
- The `maxLength` attributes on the name and message inputs: the browser truncates typed text, but the validators are modelled on any value, including longer ones set by other means.
- Lone surrogates: a Dafny string cannot hold them, so text that contains them is not modelled.
- `NaN` or fractional toast durations: durations are integers.
- src/lib/image-utils.ts and the other presentational components are not part of this model.

## Findings

| source | as written | input that shows it | evidently intended | confidence | as-written member | corrected member |
|---|---|---|---|---|---|---|
| src/components/ContactForm.tsx:148 | the 5000 ms reset started after a success is never cancelled, so it sets the status to idle even while a later submission is in flight; the submit button (line 549) is then enabled again | from a fresh form: fill in valid values, submit, let the 1500 ms timer fire, fill in the values again, submit, let the old reset fire, submit again: two submissions are in flight | a new submission cancels the pending reset, so at most one submission is in flight and the button stays disabled while it is | not executed | ContactFormExamples.DoubleSubmitAsWritten | ContactForm.FixedSingleSubmission |
| tests/e2e/contact-form.spec.ts:130-150 | the test "should submit form with valid data" fills in name, phone, e-mail and message but never selects a service type; the select keeps its placeholder value "", which fails src/components/ContactForm.tsx:74, so the status stays idle; the form renders no skeleton loader and the button is disabled only while submitting, so the expected loading state cannot appear | from a fresh form: type "Test User", "+421123456789", "test@example.com" and "This is a test message for E2E testing.", leave the service type unselected, submit | the test selects a service type before submitting, so the valid submission starts and the button is disabled | not executed | ContactFormExamples.TestSubmitStaysIdle | ContactFormExamples.TestSubmitWithServiceType |
