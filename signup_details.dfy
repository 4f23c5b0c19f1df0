/** The account-details form: name, username, email, password, password
    confirmation and the terms checkbox, with per-field error messages shown once a
    field has been visited.

    The form is modelled in its settled state: the effect that revalidates whenever
    the form data changes has run, so `errors` and `isFormValid` always agree with
    `formData`. */
module SignUpDetails {
  import opened Text

  /** The password rules, in the order their messages are reported. */
  datatype Rule = MinLength | HasUpperCase | HasLowerCase | HasNumber | HasSpecialChar

  const MinPasswordLength := 8
  /** The characters of the special-character class. */
  const SpecialChars := "!@#$%^&*(),.?\":{}|<>"

  const EmailRequired := "Email is required"
  const EmailInvalid := "Invalid email format"
  const PasswordsDiffer := "Passwords do not match"
  const PasswordSeparator := ", "

  /** The character classes the rules search for. */
  datatype CharClass = Upper | Lower | Digit | Special

  predicate InClass(k: CharClass, c: char) {
    match k
    case Upper => 'A' <= c <= 'Z'
    case Lower => 'a' <= c <= 'z'
    case Digit => IsDigit(c)
    case Special => c in SpecialChars
  }

  /** An unanchored search for one character of class `k`, as `/[...]/.test(p)`. */
  predicate Contains(k: CharClass, p: string) {
    p != [] && (InClass(k, p[0]) || Contains(k, p[1..]))
  }

  /** The search succeeds exactly when some character of `p` is in the class. */
  lemma {:induction false} ContainsMeaning(k: CharClass, p: string)
    ensures Contains(k, p) <==> exists i :: 0 <= i < |p| && InClass(k, p[i])
  {
    if p != [] {
      ContainsMeaning(k, p[1..]);
      if exists i :: 0 <= i < |p| && InClass(k, p[i]) {
        var i :| 0 <= i < |p| && InClass(k, p[i]);
        if i > 0 {
          assert p[1..][i - 1] == p[i];
        }
      }
      if exists i :: 0 <= i < |p[1..]| && InClass(k, p[1..][i]) {
        var i :| 0 <= i < |p[1..]| && InClass(k, p[1..][i]);
        assert p[i + 1] == p[1..][i];
      }
    }
  }

  predicate Holds(r: Rule, p: string) {
    match r
    case MinLength => |p| >= MinPasswordLength
    case HasUpperCase => Contains(Upper, p)
    case HasLowerCase => Contains(Lower, p)
    case HasNumber => Contains(Digit, p)
    case HasSpecialChar => Contains(Special, p)
  }

  function Message(r: Rule): (m: string)
    ensures m != ""
  {
    match r
    case MinLength => "At least 8 characters"
    case HasUpperCase => "One uppercase letter"
    case HasLowerCase => "One lowercase letter"
    case HasNumber => "One number"
    case HasSpecialChar => "One special character"
  }

  /** Distinct rules have distinct messages. */
  lemma MessageInjective(r1: Rule, r2: Rule)
    requires Message(r1) == Message(r2)
    ensures r1 == r2
  {
  }

  const RuleCount := 5

  /** The position of a rule in the reporting order. */
  function Rank(r: Rule): (k: nat)
    ensures k < RuleCount
  {
    match r
    case MinLength => 0
    case HasUpperCase => 1
    case HasLowerCase => 2
    case HasNumber => 3
    case HasSpecialChar => 4
  }

  /** The rule at a position of the reporting order. */
  function RuleAt(k: nat): (r: Rule)
    requires k < RuleCount
    ensures Rank(r) == k
  {
    if k == 0 then MinLength
    else if k == 1 then HasUpperCase
    else if k == 2 then HasLowerCase
    else if k == 3 then HasNumber
    else HasSpecialChar
  }

  /** The rules before position `k` that `p` fails, in the reporting order. */
  function FailedUpTo(k: nat, p: string): (failed: seq<Rule>)
    requires k <= RuleCount
    ensures |failed| <= k
  {
    if k == 0 then []
    else FailedUpTo(k - 1, p) + (if Holds(RuleAt(k - 1), p) then [] else [RuleAt(k - 1)])
  }

  /** The rules that `p` fails. */
  function FailedRules(p: string): seq<Rule> {
    FailedUpTo(RuleCount, p)
  }

  /** The messages of a list of rules, in order. */
  function Messages(rules: seq<Rule>): (ms: seq<string>)
    ensures |ms| == |rules| && forall i :: 0 <= i < |rules| ==> ms[i] == Message(rules[i])
  {
    if rules == [] then [] else [Message(rules[0])] + Messages(rules[1..])
  }

  /** Pushing a rule pushes its message. */
  lemma MessagesPush(rules: seq<Rule>, r: Rule)
    ensures Messages(rules + [r]) == Messages(rules) + [Message(r)]
  {
    var ms := Messages(rules + [r]);
    assert forall i :: 0 <= i < |rules| ==> (rules + [r])[i] == rules[i];
    assert ms[|rules|] == Message(r);
  }

  /** The password check: test the five rules, then push the message of each failed
      rule in turn. */
  method ValidatePassword(p: string) returns (errors: seq<string>)
    ensures errors == Messages(FailedRules(p))
  {
    var minLength := |p| >= MinPasswordLength;
    var hasUpperCase := Contains(Upper, p);
    var hasLowerCase := Contains(Lower, p);
    var hasNumber := Contains(Digit, p);
    var hasSpecialChar := Contains(Special, p);

    ghost var failed: seq<Rule> := [];
    errors := [];
    if !minLength {
      MessagesPush(failed, MinLength);
      errors, failed := errors + [Message(MinLength)], failed + [MinLength];
    }
    assert failed == FailedUpTo(1, p);
    if !hasUpperCase {
      MessagesPush(failed, HasUpperCase);
      errors, failed := errors + [Message(HasUpperCase)], failed + [HasUpperCase];
    }
    assert failed == FailedUpTo(2, p);
    if !hasLowerCase {
      MessagesPush(failed, HasLowerCase);
      errors, failed := errors + [Message(HasLowerCase)], failed + [HasLowerCase];
    }
    assert failed == FailedUpTo(3, p);
    if !hasNumber {
      MessagesPush(failed, HasNumber);
      errors, failed := errors + [Message(HasNumber)], failed + [HasNumber];
    }
    assert failed == FailedUpTo(4, p);
    if !hasSpecialChar {
      MessagesPush(failed, HasSpecialChar);
      errors, failed := errors + [Message(HasSpecialChar)], failed + [HasSpecialChar];
    }
    assert failed == FailedUpTo(5, p);
  }

  /** Before position `k`, a rule is reported exactly when it fails. */
  lemma {:induction false} FailedUpToMember(k: nat, p: string, r: Rule)
    requires k <= RuleCount
    ensures r in FailedUpTo(k, p) <==> Rank(r) < k && !Holds(r, p)
  {
    if k > 0 {
      FailedUpToMember(k - 1, p, r);
      assert Rank(r) == k - 1 ==> r == RuleAt(k - 1);
    }
  }

  predicate InRankOrder(rules: seq<Rule>) {
    forall i, j :: 0 <= i < j < |rules| ==> Rank(rules[i]) < Rank(rules[j])
  }

  /** The reported rules keep the reporting order. */
  lemma {:induction false} FailedUpToOrdered(k: nat, p: string)
    requires k <= RuleCount
    ensures InRankOrder(FailedUpTo(k, p))
  {
    if k > 0 {
      FailedUpToOrdered(k - 1, p);
      var f := FailedUpTo(k, p);
      var init := FailedUpTo(k - 1, p);
      if !Holds(RuleAt(k - 1), p) {
        assert f == init + [RuleAt(k - 1)];
        forall i, j | 0 <= i < j < |f| ensures Rank(f[i]) < Rank(f[j]) {
          assert f[i] == init[i];
          if j == |init| {
            FailedUpToMember(k - 1, p, f[i]);
          } else {
            assert f[j] == init[j];
          }
        }
      }
    }
  }

  /** A rule is reported exactly when the password fails it. */
  lemma FailedRulesExactly(p: string)
    ensures forall r: Rule :: r in FailedRules(p) <==> !Holds(r, p)
  {
    forall r: Rule ensures r in FailedRules(p) <==> !Holds(r, p) {
      FailedUpToMember(RuleCount, p, r);
    }
  }

  /** The password errors are at most five, none exactly when every rule holds, and
      in the fixed rule order. */
  lemma PasswordErrorsMeaning(p: string)
    ensures |Messages(FailedRules(p))| <= RuleCount
    ensures Messages(FailedRules(p)) == [] <==> forall r: Rule :: Holds(r, p)
    ensures InRankOrder(FailedRules(p))
  {
    var failed := FailedRules(p);
    FailedRulesExactly(p);
    if failed != [] {
      assert failed[0] in failed;
    }
    FailedUpToOrdered(RuleCount, p);
  }

  /** The message of a rule appears among the password errors exactly when the
      password fails that rule. */
  lemma PasswordMessagesExactly(p: string)
    ensures forall r: Rule :: Message(r) in Messages(FailedRules(p)) <==> !Holds(r, p)
  {
    var failed := FailedRules(p);
    var ms := Messages(failed);
    FailedRulesExactly(p);
    forall r: Rule ensures Message(r) in ms <==> r in failed {
      if Message(r) in ms {
        var i :| 0 <= i < |ms| && ms[i] == Message(r);
        MessageInjective(failed[i], r);
      }
      if r in failed {
        var i :| 0 <= i < |failed| && failed[i] == r;
        assert ms[i] == Message(r);
      }
    }
  }

  /** A character of the class `[^\s@]`. */
  predicate RunChar(c: char) {
    !IsWhitespace(c) && c != '@'
  }

  /** A run of `[^\s@]` characters. */
  predicate NoSpaceOrAt(s: string) {
    forall i :: 0 <= i < |s| ==> RunChar(s[i])
  }

  /** A concatenation is a run exactly when both parts are. */
  lemma NoSpaceOrAtConcat(a: string, b: string)
    ensures NoSpaceOrAt(a + b) <==> NoSpaceOrAt(a) && NoSpaceOrAt(b)
  {
    if NoSpaceOrAt(a) && NoSpaceOrAt(b) {
      forall i | 0 <= i < |a + b| ensures RunChar((a + b)[i]) {
        if i < |a| { assert (a + b)[i] == a[i]; } else { assert (a + b)[i] == b[i - |a|]; }
      }
    }
    if NoSpaceOrAt(a + b) {
      forall i | 0 <= i < |a| ensures RunChar(a[i]) { assert a[i] == (a + b)[i]; }
      forall i | 0 <= i < |b| ensures RunChar(b[i]) { assert b[i] == (a + b)[i + |a|]; }
    }
  }

  /** The email pattern read literally: a run, '@', a run, '.', a run, each run
      non-empty and free of white space and '@', covering the whole string. */
  ghost predicate EmailPattern(s: string) {
    exists k, j :: PatternAt(s, k, j)
  }

  /** The pattern with its '@' at `k` and its '.' at `j`. */
  predicate PatternAt(s: string, k: int, j: int) {
    0 < k && k + 1 < j && j + 1 < |s| && s[k] == '@' && s[j] == '.' &&
    NoSpaceOrAt(s[..k]) && NoSpaceOrAt(s[k + 1..j]) && NoSpaceOrAt(s[j + 1..])
  }

  /** Cutting a suffix of `s` around position `j`. */
  lemma SplitAround(s: string, lo: nat, j: nat)
    requires lo <= j < |s|
    ensures s[lo..] == s[lo..j] + [s[j]] + s[j + 1..]
  {
  }

  /** The index of the first `c` in `s`, or `|s|` when there is none. */
  function IndexOf(s: string, c: char): (k: nat)
    ensures k <= |s| && (k < |s| ==> s[k] == c)
    ensures forall i :: 0 <= i < k ==> s[i] != c
  {
    if s == [] then 0 else if s[0] == c then 0 else 1 + IndexOf(s[1..], c)
  }

  /** A '.' strictly inside `d`. */
  predicate HasInnerDot(d: string) {
    exists j :: 0 < j < |d| - 1 && d[j] == '.'
  }

  /** The email match as a left-to-right scan: the local part up to the first '@'
      is non-empty, and the domain after it has no white space or '@' and an inner '.'. */
  predicate EmailMatches(s: string) {
    var k := IndexOf(s, '@');
    0 < k < |s| && NoSpaceOrAt(s[..k]) && NoSpaceOrAt(s[k + 1..]) && HasInnerDot(s[k + 1..])
  }

  /** Every string the scan accepts fits the pattern. */
  lemma EmailMatchesSound(s: string)
    requires EmailMatches(s)
    ensures EmailPattern(s)
  {
    var k := IndexOf(s, '@');
    var d := s[k + 1..];
    var j :| 0 < j < |d| - 1 && d[j] == '.';
    var jj := k + 1 + j;
    SplitAround(s, k + 1, jj);
    NoSpaceOrAtConcat(s[k + 1..jj] + [s[jj]], s[jj + 1..]);
    NoSpaceOrAtConcat(s[k + 1..jj], [s[jj]]);
    assert PatternAt(s, k, jj);
  }

  /** Every string that fits the pattern is accepted by the scan. */
  lemma EmailMatchesComplete(s: string)
    requires EmailPattern(s)
    ensures EmailMatches(s)
  {
    var a, j :| PatternAt(s, a, j);
    PatternAtMatches(s, a, j);
  }

  lemma PatternAtMatches(s: string, a: int, j: int)
    requires PatternAt(s, a, j)
    ensures EmailMatches(s)
  {
    FirstAt(s, a);
    SplitAround(s, a + 1, j);
    assert RunChar(s[j]);
    NoSpaceOrAtConcat(s[a + 1..j], [s[j]]);
    NoSpaceOrAtConcat(s[a + 1..j] + [s[j]], s[j + 1..]);
    assert s[a + 1..][j - a - 1] == '.';
  }

  /** An '@' after a run is the first '@'. */
  lemma FirstAt(s: string, a: nat)
    requires a < |s| && s[a] == '@' && NoSpaceOrAt(s[..a])
    ensures IndexOf(s, '@') == a
  {
    assert forall i :: 0 <= i < a ==> s[..a][i] == s[i];
  }

  /** The scan accepts exactly the strings the pattern describes. */
  lemma EmailMatchesIffPattern(s: string)
    ensures EmailMatches(s) <==> EmailPattern(s)
  {
    if EmailMatches(s) {
      EmailMatchesSound(s);
    }
    if EmailPattern(s) {
      EmailMatchesComplete(s);
    }
  }

  /** The email check: required, then the pattern. */
  function ValidateEmail(email: string): (r: string)
    ensures r == EmailRequired <==> email == ""
    ensures r == EmailInvalid <==> email != "" && !EmailPattern(email)
    ensures r == "" <==> email != "" && EmailPattern(email)
  {
    EmailMatchesIffPattern(email);
    if email == "" then EmailRequired
    else if !EmailMatches(email) then EmailInvalid
    else ""
  }

  datatype FormData = FormData(name: string, username: string, email: string,
                               password: string, confirmPassword: string, agreeToTerms: bool)
  {
    function TextOf(f: TextField): string {
      match f
      case Name => name
      case Username => username
      case Email => email
      case Password => password
      case ConfirmPassword => confirmPassword
    }
  }

  const InitialFormData := FormData("", "", "", "", "", false)

  /** The form data after a change event: the named field takes the new value (the
      checkbox its `checked` state) and every other field keeps its value. */
  function ApplyChange(d: FormData, ev: ChangeEvent): (d2: FormData)
    ensures ev.TextChange? ==>
      d2.TextOf(ev.field) == ev.value && d2.agreeToTerms == d.agreeToTerms &&
      forall f: TextField :: f != ev.field ==> d2.TextOf(f) == d.TextOf(f)
    ensures ev.TermsChange? ==>
      d2.agreeToTerms == ev.checked && forall f: TextField :: d2.TextOf(f) == d.TextOf(f)
  {
    match ev
    case TextChange(Name, v) => d.(name := v)
    case TextChange(Username, v) => d.(username := v)
    case TextChange(Email, v) => d.(email := v)
    case TextChange(Password, v) => d.(password := v)
    case TextChange(ConfirmPassword, v) => d.(confirmPassword := v)
    case TermsChange(c) => d.(agreeToTerms := c)
  }

  /** The text inputs of the form, by their `name` attribute. */
  datatype TextField = Name | Username | Email | Password | ConfirmPassword

  /** A change event: a text input with its new value, or the terms checkbox with
      its new `checked` state. */
  datatype ChangeEvent = TextChange(field: TextField, value: string) | TermsChange(checked: bool)

  /** The fields whose errors are shown once visited. */
  datatype ValidatedField = EmailField | PasswordField | ConfirmPasswordField

  /** The fields with a show/hide toggle. */
  datatype MaskedField = MaskedPassword | MaskedConfirmPassword

  datatype Touched = Touched(email: bool, password: bool, confirmPassword: bool) {
    function At(f: ValidatedField): bool {
      match f
      case EmailField => email
      case PasswordField => password
      case ConfirmPasswordField => confirmPassword
    }
  }

  datatype Visibility = Visibility(password: bool, confirmPassword: bool) {
    function At(f: MaskedField): bool {
      match f
      case MaskedPassword => password
      case MaskedConfirmPassword => confirmPassword
    }
  }

  datatype Errors = Errors(email: string, password: string, confirmPassword: string) {
    function At(f: ValidatedField): string {
      match f
      case EmailField => email
      case PasswordField => password
      case ConfirmPasswordField => confirmPassword
    }
    predicate AllEmpty() {
      email == "" && password == "" && confirmPassword == ""
    }
  }

  /** The joined password message is empty exactly when every rule holds. */
  lemma PasswordTextEmpty(p: string)
    ensures JoinWith(Messages(FailedRules(p)), PasswordSeparator) == "" <==>
            forall r: Rule :: Holds(r, p)
  {
    var failed := FailedRules(p);
    var ms := Messages(failed);
    JoinWithEmpty(ms, PasswordSeparator);
    if failed == [] {
      forall r: Rule ensures Holds(r, p) { FailedUpToMember(RuleCount, p, r); }
    } else {
      FailedUpToMember(RuleCount, p, failed[0]);
    }
  }

  /** The three error messages of the form data. */
  function FormErrors(d: FormData): (e: Errors)
    ensures e.email == ValidateEmail(d.email)
    ensures e.password == "" <==> forall r: Rule :: Holds(r, d.password)
    ensures e.confirmPassword == PasswordsDiffer <==> d.password != d.confirmPassword
    ensures e.confirmPassword == "" <==> d.password == d.confirmPassword
  {
    PasswordTextEmpty(d.password);
    Errors(ValidateEmail(d.email),
           JoinWith(Messages(FailedRules(d.password)), PasswordSeparator),
           if d.password != d.confirmPassword then PasswordsDiffer else "")
  }

  /** Every input marked `required` is filled and the terms box is checked: the part
      of the browser's constraint validation that must pass before the form's submit
      event fires. */
  predicate RequiredFilled(d: FormData) {
    d.name != "" && d.username != "" && d.email != "" && d.password != "" &&
    d.confirmPassword != "" && d.agreeToTerms
  }

  /** The form may be submitted: no error, name and username given, terms accepted. */
  predicate IsValidForm(d: FormData) {
    FormErrors(d).AllEmpty() && d.name != "" && d.username != "" && d.agreeToTerms
  }

  /** Validity in terms of the inputs alone. */
  lemma IsValidFormMeaning(d: FormData)
    ensures IsValidForm(d) <==>
      d.email != "" && EmailPattern(d.email) &&
      (forall r: Rule :: Holds(r, d.password)) &&
      d.password == d.confirmPassword &&
      d.name != "" && d.username != "" && d.agreeToTerms
  {
    var e := FormErrors(d);
    assert e.email == "" <==> d.email != "" && EmailPattern(d.email);
  }

  datatype Option<T> = None | Some(value: T)

  class DetailsForm {
    var formData: FormData
    var touched: Touched
    var showPassword: Visibility
    var errors: Errors
    var isFormValid: bool

    ghost predicate Valid()
      reads this
    {
      errors == FormErrors(formData) && isFormValid == IsValidForm(formData)
    }

    /** The form as first rendered, after the validation effect has run once. */
    constructor ()
      ensures Valid()
      ensures formData == InitialFormData
      ensures touched == Touched(false, false, false)
      ensures showPassword == Visibility(false, false)
      ensures !isFormValid
    {
      formData := InitialFormData;
      touched := Touched(false, false, false);
      showPassword := Visibility(false, false);
      new;
      ValidateForm();
    }

    /** Recompute the error messages and the validity flag from the form data. */
    method ValidateForm()
      modifies this`errors, this`isFormValid
      ensures Valid()
    {
      var passwordErrors := ValidatePassword(formData.password);
      var newErrors := Errors(ValidateEmail(formData.email),
                              JoinWith(passwordErrors, PasswordSeparator),
                              if formData.password != formData.confirmPassword then PasswordsDiffer else "");
      errors := newErrors;
      isFormValid := newErrors.AllEmpty() && formData.name != "" && formData.username != ""
                     && formData.agreeToTerms;
    }

    /** A change event updates its own field only; validation follows. */
    method HandleChange(ev: ChangeEvent)
      requires Valid()
      modifies this`formData, this`errors, this`isFormValid
      ensures Valid()
      ensures formData == ApplyChange(old(formData), ev)
    {
      formData := ApplyChange(formData, ev);
      ValidateForm();
    }

    /** Leaving a validated field marks it as visited and nothing else. */
    method HandleBlur(f: ValidatedField)
      requires Valid()
      modifies this`touched, this`errors, this`isFormValid
      ensures Valid() && errors == old(errors) && isFormValid == old(isFormValid)
      ensures touched.At(f)
      ensures forall g: ValidatedField :: g != f ==> touched.At(g) == old(touched.At(g))
    {
      match f {
        case EmailField => touched := touched.(email := true);
        case PasswordField => touched := touched.(password := true);
        case ConfirmPasswordField => touched := touched.(confirmPassword := true);
      }
      ValidateForm();
    }

    /** The eye button flips the visibility of its own field only. */
    method TogglePasswordVisibility(f: MaskedField)
      requires Valid()
      modifies this`showPassword
      ensures Valid()
      ensures showPassword.At(f) == !old(showPassword.At(f))
      ensures forall g: MaskedField :: g != f ==> showPassword.At(g) == old(showPassword.At(g))
    {
      match f
      case MaskedPassword => showPassword := showPassword.(password := !showPassword.password);
      case MaskedConfirmPassword =>
        showPassword := showPassword.(confirmPassword := !showPassword.confirmPassword);
    }

    /** Submitting shows every error and goes ahead only for a valid form. The
        browser raises the submit event only once every required input is filled. */
    method HandleSubmit() returns (submitted: bool)
      requires Valid() && RequiredFilled(formData)
      modifies this`touched, this`errors, this`isFormValid
      ensures Valid() && errors == old(errors)
      ensures touched == Touched(true, true, true)
      ensures submitted == IsValidForm(formData)
    {
      touched := Touched(true, true, true);
      ValidateForm();
      if !isFormValid {
        submitted := false;
        return;
      }
      submitted := true;
    }

    /** The message shown under a field: its error, once the field is visited. */
    function DisplayedError(f: ValidatedField): (r: Option<string>)
      reads this
      ensures r.Some? <==> touched.At(f) && errors.At(f) != ""
      ensures r.Some? ==> r.value == errors.At(f)
    {
      if touched.At(f) && errors.At(f) != "" then Some(errors.At(f)) else None
    }
  }

  /** A form that is invalid although name, username and terms are given has an
      error message in one of its three checked fields. */
  lemma InvalidFormHasError(d: FormData)
    requires d.name != "" && d.username != "" && d.agreeToTerms && !IsValidForm(d)
    ensures exists f: ValidatedField :: FormErrors(d).At(f) != ""
  {
    var e := FormErrors(d);
    if e.email != "" {
      assert e.At(EmailField) != "";
    } else if e.password != "" {
      assert e.At(PasswordField) != "";
    } else {
      assert e.At(ConfirmPasswordField) != "";
    }
  }

  /** Submitting a form whose required inputs are all filled but that is still
      invalid does not submit it, and shows at least one error message. */
  method SubmittedInvalidFormShowsError(form: DetailsForm) returns (submitted: bool)
    requires form.Valid() && RequiredFilled(form.formData)
    requires !IsValidForm(form.formData)
    modifies form
    ensures !submitted
    ensures exists f: ValidatedField :: form.DisplayedError(f).Some?
  {
    submitted := form.HandleSubmit();
    InvalidFormHasError(form.formData);
    var f: ValidatedField :| FormErrors(form.formData).At(f) != "";
    assert form.DisplayedError(f).Some?;
  }
}
