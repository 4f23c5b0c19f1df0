# Sign-up screens: a Dafny model

This project models the event-handler logic of three React sign-up screens:

- **Phone sign-up with a one-time passcode** (`components/SignUp_OTP.jsx`, module `Otp`).
  - After a ten-character phone number is submitted, a popup asks for a four-digit code.
  - The code is typed into four slots, and focus follows the typing.
  - Verify compares the joined code with the fixed code `1234` after a delay.
  - A 90-second countdown gates the Resend button, and its label is shown as `m:ss`.
- **Account-details form** (`components/SignUpDetailsForm.jsx`, module `SignUpDetails`).
  - Five password rules each report a message, in a fixed order.
  - The email is checked against `^[^\s@]+@[^\s@]+\.[^\s@]+$`.
  - The password and its confirmation must match.
  - The form is valid only when every error is empty, name and username are given, and the terms are accepted.
  - Errors show only for visited fields, and the password fields have show/hide toggles.
- **Profile step** (`components/WelcomeProfile.jsx`, module `Profile`).
  - Submitting a blank location is refused.
  - Enter in the location input submits.
  - A gallery of eight default pictures can be opened, used to pick one, and closed.

Module `Text` holds the string helpers the three share:
- decimal digits, and the white space of `\s` and `trim()`;
- `toString()` on naturals and `padStart(2, "0")`;
- `join(sep)` and `join("")`.

Each screen's mutable React state becomes a class with one field per `useState` hook. Each handler is a method whose `modifies` clause names exactly the fields it sets. The pure parts are functions with lemmas about them:
- the code join;
- the timer label;
- the password and email checks;
- the blank test.

Modelling decisions:
- **Deferred OTP check.** Verify captures `otp.join("")` and schedules the comparison with `setTimeout`. The model appends the captured code to a `pending` queue. A separate `Resolve` event stands for the timeout firing: it takes the oldest captured code and applies the outcome. Timeouts with equal delays fire in the order they were scheduled, so the queue is first in, first out.
  - The source has no double-submit guard and no cancellation, so neither has the model. `StaleCaptureAfterVerification` shows the consequence.
- **Countdown.** Each second of the countdown is an explicit `Tick` event. The countdown runs from mount, whether or not the popup is open.
- **Focus.** Keyboard focus is the index of the focused slot.
- **Disabled and hidden controls.** Controls the page disables or does not render become preconditions:
  - the code slots and Verify are disabled once verified (lines 252 and 297);
  - the popup's controls exist only while it is open;
  - the gallery buttons exist only while the gallery is open;
  - the Resend button is shown only once the countdown has run out unverified (lines 273-290);
  - the details form's submit event fires only once every `required` input is filled and the terms box is checked (`components/SignUpDetailsForm.jsx` lines 187-289).
  - A handler's own guard stays in its body even where the precondition makes it redundant. An example is Resend's `!isVerified` test.
- **Settled details form.** The form is modelled in its settled state. The effect at lines 77-79 revalidates whenever `formData` changes, so `errors` and `isFormValid` always equal functions of `formData`. The class invariant `Valid()` states this.
- **The profile's initial picture** is a constructor parameter, because the embedded image literal is not part of the model.

## Model

| member | source | states |
|---|---|---|
| `Text.IsWhitespace` | components/SignUpDetailsForm.jsx:52 | the white space of `\s` (and of `trim()`): the ECMAScript WhiteSpace and LineTerminator code points |
| `Text.Concat` | components/SignUp_OTP.jsx:59 | `join("")`: the parts written one after another |
| `Text.JoinWith` | components/SignUpDetailsForm.jsx:61 | `join(sep)`: the parts with `sep` between neighbours, "" for no parts |
| `Text.NatToString` | components/SignUp_OTP.jsx:279-280 | the decimal text of a natural is a non-empty digit string without a leading zero, one character long exactly below ten |
| `Text.DecimalRoundTrip` | components/SignUp_OTP.jsx:279-280 | reading the decimal text back gives the number |
| `Text.PadStart2` | components/SignUp_OTP.jsx:280 | padding gives length 2 (or the original length when longer), ends with the input and has only zeros in front |
| `Text.JoinWithEmpty` | components/SignUpDetailsForm.jsx:61 | a join of non-empty parts is empty exactly when there are no parts |
| `Text.ConcatFullLength` | components/SignUp_OTP.jsx:59-60 | joining parts of at most one character gives at most one character per part, and exactly one per part iff no part is empty |
| `Text.ConcatDigits` | components/SignUp_OTP.jsx:59 | joining digit strings gives a digit string |
| `Otp.AcceptsSlotValue` | components/SignUp_OTP.jsx:34 | a slot edit is taken iff the value has at most one character and all its characters are digits |
| `Otp.IsComplete` | components/SignUp_OTP.jsx:59-60 | every slot is filled, the condition under which the joined code has the full length |
| `Otp.JoinedCodeComplete` | components/SignUp_OTP.jsx:59-60 | the joined code of well-formed slots is all digits, and has length 4 iff every slot is filled |
| `Otp.TickedTimer` | components/SignUp_OTP.jsx:15-23 | a tick either keeps the timer or lowers it by one, and lowers it iff the session is unverified and the timer is positive; otherwise the timer is unchanged |
| `Otp.TicksFromValue` | components/SignUp_OTP.jsx:15-23 | `n` ticks of an unverified session take the timer down by `n`, stopping at zero |
| `Otp.CooldownExpires` | components/SignUp_OTP.jsx:10-23 | from 90, 89 ticks leave 1 and 90 or more ticks reach 0 |
| `Otp.TimerLabel` | components/SignUp_OTP.jsx:279-280 | the countdown text: whole minutes, ':', then the seconds padded to two digits |
| `Otp.TimerLabelDigits` | components/SignUp_OTP.jsx:279-280 | below ten minutes the label is minute digit, colon, tens-of-seconds digit, seconds digit |
| `Otp.TimerLabelRoundTrip` | components/SignUp_OTP.jsx:279-280 | below ten minutes the label has four characters with a colon second, and 60 × minutes + seconds read from it gives the timer back |
| `Otp.TimerLabelAtCooldown` | components/SignUp_OTP.jsx:279-280 | a timer of 90 reads "1:30" |
| `Otp.OtpSession.constructor` | components/SignUp_OTP.jsx:6-12 | mount state: empty phone, popup closed, four empty slots, focus 0, timer 90, unverified, no error, nothing pending |
| `Otp.OtpSession.SetPhoneNumber` | components/SignUp_OTP.jsx:163 | typing sets the phone number and nothing else |
| `Otp.OtpSession.HandlePhoneNumberSubmit` | components/SignUp_OTP.jsx:88-95 | the popup opens iff the number has 10 characters; opening it focuses slot 0 (effect at lines 26-30) |
| `Otp.OtpSession.Close` | components/SignUp_OTP.jsx:224 | the popup's ✕ closes it and resets nothing; callable only while the popup is open |
| `Otp.OtpSession.HandleChange` | components/SignUp_OTP.jsx:33-44 | a value of at most one digit is written into slot `index` only, with focus moving to `index+1` iff the value is non-empty and `index < 3`; any other value changes nothing; callable only while the popup is open and the slots enabled |
| `Otp.OtpSession.HandleKeyDown` | components/SignUp_OTP.jsx:47-55 | Backspace in an empty slot other than the first moves focus back by one; Enter acts as Verify; other keys change nothing |
| `Otp.OtpSession.HandleVerify` | components/SignUp_OTP.jsx:58-74 | a complete code is queued as the joined slots with the error untouched; an incomplete one queues nothing and sets "Please enter the complete 4-digit OTP." |
| `Otp.OtpSession.Resolve` | components/SignUp_OTP.jsx:62-70 | the oldest captured code leaves the queue; "1234" verifies, clears the error and zeroes the timer; any other code sets "Invalid OTP. Please try again." and keeps slots, timer and verification |
| `Otp.OtpSession.Tick` | components/SignUp_OTP.jsx:15-23 | the timer takes its ticked value and nothing else changes |
| `Otp.OtpSession.HandleResend` | components/SignUp_OTP.jsx:77-85 | callable only while the Resend button is shown (unverified, timer at 0); sets timer 90, no error, empty slots and focus 0 |
| `Otp.OtpSession.Area` | components/SignUp_OTP.jsx:273-290 | the Resend button shows iff unverified with the timer at 0, the verified notice iff verified, and otherwise the countdown with the `m:ss` label |
| `Otp.CorrectCodeVerifies` | components/SignUp_OTP.jsx:58-70 | typing 1, 2, 3, 4, pressing Verify and resolving gives a verified session with no error, the timer at 0 and an empty queue |
| `Otp.WrongCodeKeepsDigits` | components/SignUp_OTP.jsx:62-69 | a wrong code gives the invalid message, keeps the digits and leaves the countdown at 90 |
| `Otp.StaleCaptureAfterVerification` | components/SignUp_OTP.jsx:58-70 | a wrong code captured after a correct one is still resolved afterwards, leaving the session verified and showing the invalid message |
| `Otp.EditingNavigation` | components/SignUp_OTP.jsx:33-50 | a non-digit and a two-character edit are ignored, and Backspace in an empty second slot returns focus to the first |
| `SignUpDetails.Contains` | components/SignUpDetailsForm.jsx:35-38 | the unanchored search `/[...]/.test(p)` for one character of a class |
| `SignUpDetails.Holds` | components/SignUpDetailsForm.jsx:33-39 | the five password rules: length at least 8, an A-Z, an a-z, a 0-9 and one of the special characters |
| `SignUpDetails.ContainsMeaning` | components/SignUpDetailsForm.jsx:35-38 | the class search succeeds iff some character of the password is in the class |
| `SignUpDetails.Message` | components/SignUpDetailsForm.jsx:42-46 | every rule message is non-empty |
| `SignUpDetails.MessageInjective` | components/SignUpDetailsForm.jsx:42-46 | distinct rules have distinct messages |
| `SignUpDetails.FailedUpTo` | components/SignUpDetailsForm.jsx:41-46 | among the first `k` rules at most `k` fail |
| `SignUpDetails.Messages` | components/SignUpDetailsForm.jsx:42-46 | one message per rule, each that rule's message, in order |
| `SignUpDetails.MessagesPush` | components/SignUpDetailsForm.jsx:42-46 | pushing a failed rule pushes its message |
| `SignUpDetails.ValidatePassword` | components/SignUpDetailsForm.jsx:32-49 | the returned list is the messages of the failed rules, in rule order |
| `SignUpDetails.FailedUpToMember` | components/SignUpDetailsForm.jsx:41-46 | among the first `k` rules, a rule is reported iff it fails |
| `SignUpDetails.FailedUpToOrdered` | components/SignUpDetailsForm.jsx:41-46 | the reported rules are in strictly increasing rule order |
| `SignUpDetails.FailedRulesExactly` | components/SignUpDetailsForm.jsx:33-46 | a rule is reported iff the password fails it |
| `SignUpDetails.PasswordErrorsMeaning` | components/SignUpDetailsForm.jsx:41-48 | at most five errors, none iff every rule holds, reported in the order length, uppercase, lowercase, number, special |
| `SignUpDetails.PasswordMessagesExactly` | components/SignUpDetailsForm.jsx:41-48 | a rule's message appears iff the password fails that rule |
| `SignUpDetails.EmailPattern` | components/SignUpDetailsForm.jsx:52 | the regex read literally: a `[^\s@]` run, '@', a run, '.', a run, each run non-empty, covering the whole string |
| `SignUpDetails.EmailMatches` | components/SignUpDetailsForm.jsx:52 | the scan: a non-empty run before the first '@', and after it a run with a '.' that has text on both sides |
| `SignUpDetails.NoSpaceOrAtConcat` | components/SignUpDetailsForm.jsx:52 | a concatenation is a `[^\s@]` run iff both parts are |
| `SignUpDetails.EmailMatchesSound` | components/SignUpDetailsForm.jsx:52 | every string the first-'@' scan accepts fits the pattern |
| `SignUpDetails.EmailMatchesComplete` | components/SignUpDetailsForm.jsx:52 | every string fitting the pattern is accepted by the scan |
| `SignUpDetails.PatternAtMatches` | components/SignUpDetailsForm.jsx:52 | a pattern split at a given '@' and '.' is accepted by the scan |
| `SignUpDetails.FirstAt` | components/SignUpDetailsForm.jsx:52 | an '@' preceded only by run characters is the first '@' |
| `SignUpDetails.EmailMatchesIffPattern` | components/SignUpDetailsForm.jsx:52 | the scan accepts exactly the strings of the pattern |
| `SignUpDetails.ValidateEmail` | components/SignUpDetailsForm.jsx:51-56 | "Email is required" iff empty, "Invalid email format" iff non-empty and not matching, "" iff non-empty and matching |
| `SignUpDetails.ApplyChange` | components/SignUpDetailsForm.jsx:82-86 | a text change sets its own field only; a checkbox change sets `agreeToTerms` to `checked` and keeps every text field |
| `SignUpDetails.PasswordTextEmpty` | components/SignUpDetailsForm.jsx:61 | the ", "-joined password error is empty iff every rule holds |
| `SignUpDetails.FormErrors` | components/SignUpDetailsForm.jsx:58-65 | the email error is the email check; the password error is empty iff all rules hold; the confirmation error is "Passwords do not match" iff the two passwords differ, else "" |
| `SignUpDetails.RequiredFilled` | components/SignUpDetailsForm.jsx:187-289 | the `required` inputs (name, username, email, password, confirmation) are non-empty and the required terms box is checked |
| `SignUpDetails.IsValidForm` | components/SignUpDetailsForm.jsx:69-72 | all three errors empty, name and username non-empty, terms accepted |
| `SignUpDetails.IsValidFormMeaning` | components/SignUpDetailsForm.jsx:69-74 | the form is valid iff the email is non-empty and matches, every password rule holds, the passwords agree, name and username are non-empty and the terms are accepted |
| `SignUpDetails.DetailsForm.constructor` | components/SignUpDetailsForm.jsx:4-30 | empty form data, nothing touched, both passwords hidden, errors and validity settled (so the form is invalid) |
| `SignUpDetails.DetailsForm.ValidateForm` | components/SignUpDetailsForm.jsx:58-75 | errors and validity become those of the current form data |
| `SignUpDetails.DetailsForm.HandleChange` | components/SignUpDetailsForm.jsx:81-92 | the form data becomes the changed data, with errors and validity resettled |
| `SignUpDetails.DetailsForm.HandleBlur` | components/SignUpDetailsForm.jsx:94-102 | the field becomes touched, the other touched flags keep their values, and errors and validity are unchanged |
| `SignUpDetails.DetailsForm.TogglePasswordVisibility` | components/SignUpDetailsForm.jsx:104-109 | the field's visibility flips and the other keeps its value |
| `SignUpDetails.DetailsForm.HandleSubmit` | components/SignUpDetailsForm.jsx:111-130 | callable once every required input is filled and the terms box is checked; all three fields become touched and the form is submitted iff it is valid |
| `SignUpDetails.DetailsForm.DisplayedError` | components/SignUpDetailsForm.jsx:133-135 | a field shows a message iff it is touched and its error is non-empty, and the message is that error |
| `SignUpDetails.InvalidFormHasError` | components/SignUpDetailsForm.jsx:69-72 | a form that is invalid although name, username and terms are given has a non-empty error in one of the three checked fields |
| `SignUpDetails.SubmittedInvalidFormShowsError` | components/SignUpDetailsForm.jsx:115-127 | submitting a form whose required inputs are filled but which is invalid does not submit it, and afterwards some field displays an error |
| `Profile.Blank` | components/WelcomeProfile.jsx:53 | every character is white space (the empty string included) |
| `Profile.Trim` | components/WelcomeProfile.jsx:53 | `trim()`: the result is a contiguous part of the input with only white space before and after it, and is empty or starts and ends with a non-space |
| `Profile.TrimStart` | components/WelcomeProfile.jsx:53 | the result is a suffix of the input, the removed prefix is white space, and the result does not start with white space |
| `Profile.TrimEnd` | components/WelcomeProfile.jsx:53 | the result is a prefix of the input, the removed suffix is white space, and the result does not end with white space |
| `Profile.TrimStartEmpty` | components/WelcomeProfile.jsx:53 | removing leading white space leaves nothing iff the string is blank |
| `Profile.TrimEmptyIffBlank` | components/WelcomeProfile.jsx:53 | the trimmed string is empty iff every character is white space |
| `Profile.LocationSubmitError` | components/WelcomeProfile.jsx:53-57 | the message is "Please enter a valid location." iff the location is blank, and "" iff it is not |
| `Profile.ProfileSetup.constructor` | components/WelcomeProfile.jsx:5-10 | the given picture, no location, no error, gallery closed |
| `Profile.ProfileSetup.SetLocation` | components/WelcomeProfile.jsx:178 | typing sets the location and nothing else |
| `Profile.ProfileSetup.HandleLocationSubmit` | components/WelcomeProfile.jsx:51-60 | a blank location sets the error message, any other clears it; the location, picture and gallery are unchanged |
| `Profile.ProfileSetup.HandleLocationKeyDown` | components/WelcomeProfile.jsx:63-67 | Enter gives the submit outcome; other keys change nothing |
| `Profile.ProfileSetup.OpenGallery` | components/WelcomeProfile.jsx:121 | the gallery opens and nothing else changes |
| `Profile.ProfileSetup.SelectDefaultImage` | components/WelcomeProfile.jsx:137-139 | the picture becomes the `i`-th default image and the gallery closes |
| `Profile.ProfileSetup.CloseGallery` | components/WelcomeProfile.jsx:154 | the gallery closes and nothing else changes |
| `Profile.ProfileSetup.HandleImageChange` | components/WelcomeProfile.jsx:34-43 | a file read starts iff a file was chosen; the profile state is unchanged either way |
| `Profile.BlankThenNamedLocation` | components/WelcomeProfile.jsx:51-67 | submitting " \t " is refused, and then Enter on "Pune" clears the error |

## Left out

- Google sign-in (`GoogleOAuthProvider`, `useGoogleLogin`, `jwt_decode`, `components/SignUp_OTP.jsx` lines 2-3 and 98-143): foreign library calls whose behaviour is not visible.
- Wall-clock time: `setInterval` and `setTimeout` become the explicit `Tick` and `Resolve` events. Their timing relative to other events, and the cleanup of intervals, is not modelled.
- DOM focus through refs, `alert` and `console.log`. Focus is a slot index. Focus changes the browser makes on its own, such as clicking a slot, are not events of the model. Alerts and logs are unobservable.
- The `maxLength` attributes of the phone and slot inputs are left out. They are browser input limits, and `HandleChange` checks the length itself.
- `Otp.OtpSession.HandleResend`: requires the Resend button to be shown (unverified, timer at 0, lines 273-290). The handler's own no-op branch for a verified session cannot be reached from the page and is not stated.
- `Profile.ProfileSetup.HandleImageChange`: the FileReader completion that replaces the picture with a data URL is file I/O and is not modelled. Only the no-file case is stated fully (nothing changes).
- The `onError` fallback picture and the embedded base64 default picture: browser behaviour and a data literal. The initial picture is a constructor parameter.
- All JSX layout, styling, the back button (it only logs) and the placeholder links.
- JavaScript strings count UTF-16 code units; here a character is one code point. `\s` and `trim()` use the ECMAScript WhiteSpace and LineTerminator code points, listed in `Text.IsWhitespace`. The list does not follow later Unicode versions.
- React's batching and stale closures. `handleChange` and `handleSubmit` call `validateForm` on the state of the previous render, and `handleSubmit` reads `isFormValid` from that render (`components/SignUpDetailsForm.jsx` lines 89-91 and 122-124). The model is the settled state: after each event, errors and validity agree with the current form data, as the effect at lines 77-79 ensures.
- `SignUpDetails.DetailsForm.HandleSubmit`: submission means "the form is valid in the settled state". The source's check of a value from the previous render is not reproduced. Of the browser's constraint validation only the `required` half is a precondition: the browser's own syntax check of the `type="email"` input (line 211), which can also block the submit event, is not modelled.
