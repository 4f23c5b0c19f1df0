/** The phone sign-up screen with its one-time-passcode popup: a four-slot code
    entry, a 90-second resend countdown and a deferred check of the entered code
    against the fixed code "1234".

    The deferred check is modelled as a queue: Verify captures the joined code and
    appends it to `pending`; a separate `Resolve` event, standing for the timeout
    firing, takes the oldest captured code and applies its outcome. Timer ticks are
    explicit `Tick` events. Keyboard focus is the index of the focused slot. */
module Otp {
  import opened Text

  const CodeLength := 4
  const ResendCooldown := 90
  const ExpectedCode := "1234"
  const PhoneNumberLength := 10
  const IncompleteMessage := "Please enter the complete 4-digit OTP."
  const InvalidMessage := "Invalid OTP. Please try again."
  const EmptyCode: seq<string> := ["", "", "", ""]

  /** A slot edit is taken only for at most one character, all of them digits. */
  predicate AcceptsSlotValue(value: string) {
    |value| <= 1 && AllDigits(value)
  }

  predicate IsComplete(slots: seq<string>) {
    forall i :: 0 <= i < |slots| ==> slots[i] != ""
  }

  /** Every slot holds an accepted value. */
  predicate WellFormedSlots(slots: seq<string>) {
    |slots| == CodeLength && forall i :: 0 <= i < |slots| ==> AcceptsSlotValue(slots[i])
  }

  /** The joined code has the full length exactly when no slot is empty, and then it
      is a string of four digits. */
  lemma JoinedCodeComplete(slots: seq<string>)
    requires WellFormedSlots(slots)
    ensures AllDigits(Concat(slots))
    ensures |Concat(slots)| == CodeLength <==> IsComplete(slots)
  {
    ConcatFullLength(slots);
    ConcatDigits(slots);
  }

  /** Joining four slots. */
  lemma ConcatOfFour(a: string, b: string, c: string, d: string)
    ensures Concat([a, b, c, d]) == a + b + c + d
  {
    assert [a, b, c, d][1..] == [b, c, d];
    assert [b, c, d][1..] == [c, d];
    assert [c, d][1..] == [d];
    assert [d][1..] == [];
    calc {
      Concat([a, b, c, d]);
      a + Concat([b, c, d]);
      a + (b + Concat([c, d]));
      a + (b + (c + Concat([d])));
      a + (b + (c + (d + Concat([]))));
      { assert d + "" == d; }
      a + (b + (c + d));
      { assert b + (c + d) == b + c + d; }
      a + (b + c + d);
      a + b + c + d;
    }
  }

  /** One countdown tick: the interval only runs while unverified and positive. */
  function TickedTimer(timer: nat, verified: bool): (t: nat)
    ensures t == timer || t + 1 == timer
    ensures t == timer - 1 <==> !verified && timer > 0
  {
    if !verified && timer > 0 then timer - 1 else timer
  }

  /** The timer after `n` ticks of an unverified session. */
  function TicksFrom(n: nat, timer: nat): nat {
    if n == 0 then timer else TicksFrom(n - 1, TickedTimer(timer, false))
  }

  /** `n` ticks take `timer` down by `n`, stopping at zero. */
  lemma {:induction false} TicksFromValue(n: nat, timer: nat)
    ensures TicksFrom(n, timer) == if n >= timer then 0 else timer - n
  {
    if n > 0 {
      TicksFromValue(n - 1, TickedTimer(timer, false));
    }
  }

  /** Ninety ticks from the full cooldown reach zero, and further ticks stay there. */
  lemma CooldownExpires(extra: nat)
    ensures TicksFrom(ResendCooldown, ResendCooldown) == 0
    ensures TicksFrom(ResendCooldown + extra, ResendCooldown) == 0
    ensures TicksFrom(ResendCooldown - 1, ResendCooldown) == 1
  {
    TicksFromValue(ResendCooldown, ResendCooldown);
    TicksFromValue(ResendCooldown + extra, ResendCooldown);
    TicksFromValue(ResendCooldown - 1, ResendCooldown);
  }

  /** The countdown label: whole minutes, a colon, then the seconds padded to two digits. */
  function TimerLabel(t: nat): string {
    NatToString(t / 60) + ":" + PadStart2(NatToString(t % 60))
  }

  /** Below ten minutes the label is four characters `m:ss`. */
  lemma TimerLabelDigits(t: nat)
    requires t < 600
    ensures TimerLabel(t) == [DigitChar(t / 60), ':', DigitChar(t % 60 / 10), DigitChar(t % 60 % 10)]
  {
    var s := t % 60;
    if s >= 10 {
      assert NatToString(s) == NatToString(s / 10) + [DigitChar(s % 10)];
    }
  }

  lemma MinutesAndSeconds(t: nat)
    requires t < 600
    ensures t == t / 60 * 60 + t % 60 && t / 60 < 10 && t % 60 < 60
  {
  }

  /** The label can be read back: minutes times sixty plus the seconds is `t`. */
  lemma TimerLabelRoundTrip(t: nat)
    requires t < 600
    ensures |TimerLabel(t)| == 4 && TimerLabel(t)[1] == ':'
    ensures IsDigit(TimerLabel(t)[0]) && IsDigit(TimerLabel(t)[2]) && IsDigit(TimerLabel(t)[3])
    ensures DigitValue(TimerLabel(t)[0]) * 60 + DigitValue(TimerLabel(t)[2]) * 10
            + DigitValue(TimerLabel(t)[3]) == t
  {
    TimerLabelDigits(t);
    MinutesAndSeconds(t);
    var l := TimerLabel(t);
    var m, s := t / 60, t % 60;
    assert l[0] == DigitChar(m) && l[2] == DigitChar(s / 10) && l[3] == DigitChar(s % 10);
    var a, b, c := DigitValue(l[0]), DigitValue(l[2]), DigitValue(l[3]);
    assert a == m && b == s / 10 && c == s % 10;
    assert s == b * 10 + c;
  }

  /** The full cooldown reads "1:30". */
  lemma TimerLabelAtCooldown()
    ensures TimerLabel(ResendCooldown) == "1:30"
  {
    TimerLabelDigits(90);
    assert 90 / 60 == 1 && 90 % 60 / 10 == 3 && 90 % 60 % 10 == 0;
  }

  /** What the popup shows below the code entry. */
  datatype ResendArea = VerifiedNotice | Countdown(caption: string) | ResendButton

  class OtpSession {
    var phoneNumber: string
    var showOTPVerification: bool
    var otp: seq<string>
    /** Index of the slot that has keyboard focus. */
    var focus: nat
    var timer: nat
    var isVerified: bool
    var error: string
    /** Codes captured by Verify whose deferred check has not run yet, oldest first. */
    var pending: seq<string>

    ghost predicate Valid()
      reads this
    {
      WellFormedSlots(otp) && focus < CodeLength && timer <= ResendCooldown &&
      forall k :: 0 <= k < |pending| ==> |pending[k]| == CodeLength && AllDigits(pending[k])
    }

    /** The state at mount; the countdown already runs, although the popup is closed. */
    constructor ()
      ensures Valid()
      ensures phoneNumber == "" && !showOTPVerification && otp == EmptyCode && focus == 0
      ensures timer == ResendCooldown && !isVerified && error == "" && pending == []
    {
      phoneNumber := "";
      showOTPVerification := false;
      otp := EmptyCode;
      focus := 0;
      timer := ResendCooldown;
      isVerified := false;
      error := "";
      pending := [];
    }

    /** Typing in the phone-number field. */
    method SetPhoneNumber(value: string)
      requires Valid()
      modifies this`phoneNumber
      ensures Valid() && phoneNumber == value
    {
      phoneNumber := value;
    }

    /** Submitting the phone number opens the popup exactly for a ten-character
        number; opening the popup focuses the first slot. */
    method HandlePhoneNumberSubmit()
      requires Valid()
      modifies this`showOTPVerification, this`focus
      ensures Valid()
      ensures showOTPVerification == (old(showOTPVerification) || |phoneNumber| == PhoneNumberLength)
      ensures focus == if !old(showOTPVerification) && showOTPVerification then 0 else old(focus)
    {
      if |phoneNumber| == PhoneNumberLength {
        if !showOTPVerification {
          focus := 0;
        }
        showOTPVerification := true;
      }
    }

    /** The close button hides the popup and resets nothing else. */
    method Close()
      requires Valid() && showOTPVerification
      modifies this`showOTPVerification
      ensures Valid() && !showOTPVerification
    {
      showOTPVerification := false;
    }

    /** Editing slot `index`; the slots are rendered only in the open popup and are
        disabled once the code is verified. */
    method HandleChange(index: nat, value: string)
      requires Valid() && index < CodeLength
      requires showOTPVerification && !isVerified
      modifies this`otp, this`focus
      ensures Valid()
      ensures AcceptsSlotValue(value) ==> otp == old(otp)[index := value]
      ensures !AcceptsSlotValue(value) ==> otp == old(otp)
      ensures focus == if AcceptsSlotValue(value) && value != "" && index < CodeLength - 1
                       then index + 1 else old(focus)
    {
      if |value| <= 1 && AllDigits(value) {
        var newOtp := otp;
        newOtp := newOtp[index := value];
        otp := newOtp;
        if value != "" && index < |otp| - 1 {
          focus := index + 1;
        }
      }
    }

    /** Verify: the joined code is captured for a deferred check when it has four
        characters; otherwise the incomplete-code message is shown. */
    method HandleVerify()
      requires Valid()
      requires showOTPVerification && !isVerified
      modifies this`pending, this`error
      ensures Valid()
      ensures IsComplete(otp) ==> pending == old(pending) + [Concat(otp)] && error == old(error)
      ensures !IsComplete(otp) ==> pending == old(pending) && error == IncompleteMessage
    {
      var code := Concat(otp);
      JoinedCodeComplete(otp);
      if |code| == |otp| {
        pending := pending + [code];
      } else {
        error := IncompleteMessage;
      }
    }

    /** A key pressed in slot `index`: Backspace in an empty slot moves focus back,
        Enter verifies. */
    method HandleKeyDown(index: nat, key: string)
      requires Valid() && index < CodeLength
      requires showOTPVerification && !isVerified
      modifies this`focus, this`pending, this`error
      ensures Valid()
      ensures focus == if key == "Backspace" && otp[index] == "" && index > 0
                       then index - 1 else old(focus)
      ensures key == "Enter" && IsComplete(otp) ==>
                pending == old(pending) + [Concat(otp)] && error == old(error)
      ensures key == "Enter" && !IsComplete(otp) ==> pending == old(pending) && error == IncompleteMessage
      ensures key != "Enter" ==> pending == old(pending) && error == old(error)
    {
      if key == "Backspace" && otp[index] == "" && index > 0 {
        focus := index - 1;
      }
      if key == "Enter" {
        HandleVerify();
      }
    }

    /** The deferred check of the oldest captured code runs. Its outcome depends on
        the captured code only, never on the slots as they are now. */
    method Resolve()
      requires Valid() && |pending| > 0
      modifies this`pending, this`isVerified, this`error, this`timer
      ensures Valid()
      ensures pending == old(pending)[1..]
      ensures old(pending[0]) == ExpectedCode ==> isVerified && error == "" && timer == 0
      ensures old(pending[0]) != ExpectedCode ==>
                error == InvalidMessage && isVerified == old(isVerified) && timer == old(timer)
    {
      var code := pending[0];
      pending := pending[1..];
      if code == ExpectedCode {
        isVerified := true;
        error := "";
        timer := 0;
      } else {
        error := InvalidMessage;
      }
    }

    /** One second of the countdown. */
    method Tick()
      requires Valid()
      modifies this`timer
      ensures Valid()
      ensures timer == TickedTimer(old(timer), isVerified)
    {
      if !isVerified && timer > 0 {
        timer := timer - 1;
      }
    }

    /** Resending a code restarts the countdown and clears the entry. The button is
        shown in the open popup only once the countdown has run out unverified; the
        handler's own test of the verification flag is kept. */
    method HandleResend()
      requires Valid() && showOTPVerification && Area() == ResendButton
      modifies this`timer, this`error, this`otp, this`focus
      ensures Valid()
      ensures timer == ResendCooldown && error == "" && otp == EmptyCode && focus == 0
    {
      if !isVerified {
        timer := ResendCooldown;
        error := "";
        otp := EmptyCode;
        focus := 0;
      }
    }

    /** The resend area: the verified notice, the countdown label, or the resend
        button, which is offered only once the countdown has run out unverified. */
    function Area(): (r: ResendArea)
      reads this
      ensures r == ResendButton <==> !isVerified && timer == 0
      ensures r == VerifiedNotice <==> isVerified
      ensures r.Countdown? ==> timer > 0 && r.caption == TimerLabel(timer)
    {
      if isVerified then VerifiedNotice
      else if timer > 0 then Countdown(TimerLabel(timer))
      else ResendButton
    }
  }

  /** Typing the four digits of `code` into the slots, first to last. */
  method EnterCode(s: OtpSession, code: string)
    requires s.Valid() && s.showOTPVerification && !s.isVerified && s.focus == 0
    requires |code| == CodeLength && AllDigits(code)
    modifies s
    ensures s.Valid() && s.otp == [[code[0]], [code[1]], [code[2]], [code[3]]]
    ensures IsComplete(s.otp) && Concat(s.otp) == code && s.focus == CodeLength - 1
    ensures s.showOTPVerification && !s.isVerified && s.timer == old(s.timer)
    ensures s.error == old(s.error) && s.pending == old(s.pending)
    ensures s.phoneNumber == old(s.phoneNumber)
  {
    s.HandleChange(0, [code[0]]);
    s.HandleChange(1, [code[1]]);
    s.HandleChange(2, [code[2]]);
    s.HandleChange(3, [code[3]]);
    ConcatOfFour([code[0]], [code[1]], [code[2]], [code[3]]);
    assert [code[0]] + [code[1]] + [code[2]] + [code[3]] == code;
  }

  /** A fresh session whose popup was opened with a ten-digit number. */
  method OpenSession() returns (s: OtpSession)
    ensures fresh(s) && s.Valid() && s.showOTPVerification && !s.isVerified && s.focus == 0
    ensures s.timer == ResendCooldown && s.error == "" && s.pending == []
  {
    s := new OtpSession();
    s.SetPhoneNumber("9876543210");
    s.HandlePhoneNumberSubmit();
  }

  /** Entering 1, 2, 3, 4 and letting the deferred check run verifies the number and
      stops the countdown. */
  method CorrectCodeVerifies() returns (s: OtpSession)
    ensures s.Valid() && s.isVerified && s.error == "" && s.timer == 0
    ensures s.otp == ["1", "2", "3", "4"] && s.pending == []
  {
    s := OpenSession();
    EnterCode(s, "1234");
    s.HandleVerify();
    s.Resolve();
  }

  /** Entering 1, 2, 3, 5 and verifying shows the invalid-code message and keeps the
      digits; the countdown is not touched. */
  method WrongCodeKeepsDigits() returns (s: OtpSession)
    ensures s.Valid() && !s.isVerified && s.error == InvalidMessage
    ensures s.otp == ["1", "2", "3", "5"] && s.timer == ResendCooldown
  {
    s := OpenSession();
    EnterCode(s, "1235");
    s.HandleVerify();
    assert "1235" != ExpectedCode by { assert "1235"[3] != "1234"[3]; }
    s.Resolve();
  }

  /** With no double-submit guard, a wrong code captured after a correct one can
      still be resolved after verification: the popup then shows both the verified
      state and the invalid-code message. */
  method StaleCaptureAfterVerification() returns (s: OtpSession)
    ensures s.Valid() && s.isVerified && s.error == InvalidMessage
    ensures s.otp == ["1", "2", "3", "5"]
  {
    s := OpenSession();
    EnterCode(s, "1234");
    s.HandleVerify();
    s.HandleChange(3, "5");
    assert s.otp == ["1", "2", "3", "5"];
    ConcatOfFour("1", "2", "3", "5");
    assert IsComplete(s.otp) && Concat(s.otp) == "1235";
    s.HandleKeyDown(3, "Enter");
    assert s.pending == ["1234", "1235"];
    s.Resolve();
    assert "1235" != ExpectedCode by { assert "1235"[3] != "1234"[3]; }
    s.Resolve();
  }

  /** A non-digit edit is ignored, and Backspace in an emptied slot moves focus back. */
  method EditingNavigation() returns (s: OtpSession)
    ensures s.Valid() && s.otp == ["7", "", "", ""] && s.focus == 0
  {
    s := new OtpSession();
    s.SetPhoneNumber("9876543210");
    s.HandlePhoneNumberSubmit();
    s.HandleChange(0, "7");
    assert !AcceptsSlotValue("x") by { assert !IsDigit("x"[0]); }
    s.HandleChange(1, "x");
    s.HandleChange(1, "42");
    assert s.focus == 1 && s.otp == ["7", "", "", ""];
    s.HandleKeyDown(1, "Backspace");
  }
}
