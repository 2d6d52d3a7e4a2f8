/** The login screen: a two-step flow (phone number, then one-time code).
    The simulated network calls are `setTimeout` completions and the resend
    countdown is a one-second interval; here each completion and each tick is
    a separate operation, so any interleaving of user events, completions and
    ticks can be played against the model. */
module Login {
  import opened PhoneInput
  import opened Wrappers
  import OtpInput

  datatype Step = Phone | Otp

  /** The navigation requests the screen emits. */
  datatype Route =
    | GoBack       // router.back()
    | ReplaceTabs  // router.replace('/(tabs)')

  /** The value the resend countdown restarts from. */
  const ResendSeconds: nat := 59

  /** The two-digit prefixes of Senegalese mobile numbers. */
  const MobilePrefixes: set<string> := {"70", "71", "75", "76", "77", "78"}

  /** `[0-9]{n}` matched against the whole of `s`. */
  predicate MatchesDigits(s: string, n: nat)
    decreases n
  {
    if n == 0 then s == []
    else s != [] && IsDigit(s[0]) && MatchesDigits(s[1..], n - 1)
  }

  /** `^(70|71|75|76|77|78)[0-9]{7}$` */
  predicate MatchesMobilePattern(s: string) {
    |s| >= 2 && s[..2] in MobilePrefixes && MatchesDigits(s[2..], 7)
  }

  /** The check `handleSendCode` applies: the digits of the entered number,
      in order, must match the mobile pattern. */
  predicate IsValidNumber(phoneNumber: string) {
    MatchesMobilePattern(KeepDigits(phoneNumber))
  }

  lemma {:induction false} MatchesDigitsIff(s: string, n: nat)
    ensures MatchesDigits(s, n) <==> |s| == n && AllDigits(s)
    decreases n
  {
    if n > 0 && s != [] {
      MatchesDigitsIff(s[1..], n - 1);
      if AllDigits(s) {
        assert AllDigits(s[1..]) by {
          forall i | 0 <= i < |s[1..]| ensures IsDigit(s[1..][i]) {
            assert s[1..][i] == s[i + 1];
          }
        }
      }
      if IsDigit(s[0]) && AllDigits(s[1..]) {
        forall i | 0 <= i < |s| ensures IsDigit(s[i]) {
          if i > 0 { assert s[i] == s[1..][i - 1]; }
        }
      }
    }
  }

  /** The pattern in closed form: nine characters, all digits, starting with
      '7' followed by one of 0, 1, 5, 6, 7, 8. */
  lemma MobilePatternIff(s: string)
    ensures MatchesMobilePattern(s) <==>
      |s| == 9 && AllDigits(s) && s[0] == '7' && s[1] in {'0', '1', '5', '6', '7', '8'}
  {
    if |s| >= 2 {
      MatchesDigitsIff(s[2..], 7);
      var p := s[..2];
      assert p == [s[0], s[1]];
      if p in MobilePrefixes {
        assert s[0] == '7' && s[1] in {'0', '1', '5', '6', '7', '8'};
      }
      if s[0] == '7' && s[1] in {'0', '1', '5', '6', '7', '8'} {
        assert p in MobilePrefixes by {
          if s[1] == '0' { assert p == "70"; }
          else if s[1] == '1' { assert p == "71"; }
          else if s[1] == '5' { assert p == "75"; }
          else if s[1] == '6' { assert p == "76"; }
          else if s[1] == '7' { assert p == "77"; }
          else { assert p == "78"; }
        }
      }
      if |s| == 9 && AllDigits(s) {
        assert AllDigits(s[2..]) by {
          forall i | 0 <= i < |s[2..]| ensures IsDigit(s[2..][i]) {
            assert s[2..][i] == s[i + 2];
          }
        }
      }
      if p in MobilePrefixes && |s[2..]| == 7 && AllDigits(s[2..]) {
        forall i | 0 <= i < |s| ensures IsDigit(s[i]) {
          if i >= 2 { assert s[i] == s[2..][i - 2]; }
        }
      }
    }
  }

  /** Separators typed into the field do not matter: only the digits of the
      entered text are validated. */
  lemma ValidNumberIgnoresSeparators(a: string, sep: string, b: string)
    requires forall i :: 0 <= i < |sep| ==> !IsDigit(sep[i])
    ensures IsValidNumber(a + sep + b) <==> IsValidNumber(a + b)
  {
    KeepDigitsOfSeparators(sep);
    KeepDigitsAppend(a + sep, b);
    KeepDigitsAppend(a, sep);
    KeepDigitsAppend(a, b);
    assert KeepDigits(a + sep + b) == KeepDigits(a + b);
  }

  /** The decimal notation of a number, as `${n}` renders it. */
  function Decimal(n: nat): (s: string)
    ensures |s| >= 1 && AllDigits(s)
    ensures |s| == 1 <==> n < 10
    ensures |s| == 2 <==> 10 <= n < 100
    ensures s[0] == '0' <==> n == 0
  {
    if n < 10 then [DigitChar(n)] else Decimal(n / 10) + [DigitChar(n % 10)]
  }

  function DigitChar(d: nat): (c: char)
    requires d < 10
    ensures IsDigit(c)
  {
    ('0' as int + d) as char
  }

  /** The number a string of digits denotes. */
  function DecimalValue(s: string): nat
    requires AllDigits(s)
  {
    if s == [] then 0
    else DecimalValue(s[..|s| - 1]) * 10 + (s[|s| - 1] as int - '0' as int)
  }

  /** Reading back the rendered number gives the number. */
  lemma {:induction false} DecimalRoundTrip(n: nat)
    ensures DecimalValue(Decimal(n)) == n
  {
    if n >= 10 {
      DecimalRoundTrip(n / 10);
      var s := Decimal(n);
      assert s[..|s| - 1] == Decimal(n / 10);
    }
  }

  /** A leading zero does not change the value read. */
  lemma {:induction false} LeadingZero(s: string)
    requires AllDigits(s)
    ensures AllDigits("0" + s) && DecimalValue("0" + s) == DecimalValue(s)
  {
    assert AllDigits("0" + s) by {
      forall i | 0 <= i < |"0" + s| ensures IsDigit(("0" + s)[i]) {
        if i > 0 { assert ("0" + s)[i] == s[i - 1]; }
      }
    }
    if s != [] {
      var t := s[..|s| - 1];
      assert AllDigits(t) by {
        forall i | 0 <= i < |t| ensures IsDigit(t[i]) { assert t[i] == s[i]; }
      }
      LeadingZero(t);
      assert ("0" + s)[..|"0" + s| - 1] == "0" + t;
    }
  }

  /** The countdown as shown: zero-padded to two digits below ten. */
  function CountdownText(timer: nat): (text: string)
    ensures |text| >= 2 && AllDigits(text)
    ensures timer < 100 ==> |text| == 2
    ensures text[0] == '0' <==> timer < 10
  {
    if timer < 10 then "0" + Decimal(timer) else Decimal(timer)
  }

  const ResendReady: string := "Renvoyer le code"
  const ResendWaitPrefix: string := "Renvoyer le code dans ("

  /** The text of the resend control in the code step. */
  function ResendLabel(timer: nat): string {
    if timer > 0 then ResendWaitPrefix + CountdownText(timer) + ")" else ResendReady
  }

  /** The resend control is disabled while the countdown runs. */
  predicate ResendDisabled(timer: nat) {
    timer > 0
  }

  /** Reads a resend label back: the seconds it announces, or None for the
      label of the enabled control. */
  function CountdownOf(shown: string): Option<nat> {
    var n := |ResendWaitPrefix|;
    if |shown| >= n + 1 && shown[..n] == ResendWaitPrefix
       && shown[|shown| - 1] == ')' && AllDigits(shown[n..|shown| - 1])
    then Some(DecimalValue(shown[n..|shown| - 1]))
    else None
  }

  /** The label announces exactly the remaining seconds while the control is
      disabled, and announces nothing once it is enabled. */
  lemma ResendLabelRoundTrip(timer: nat)
    ensures CountdownOf(ResendLabel(timer)) == if ResendDisabled(timer) then Some(timer) else None
  {
    var shown := ResendLabel(timer);
    if timer > 0 {
      var text := CountdownText(timer);
      assert shown[..|ResendWaitPrefix|] == ResendWaitPrefix;
      assert shown[|ResendWaitPrefix|..|shown| - 1] == text;
      DecimalRoundTrip(timer);
      if timer < 10 { LeadingZero(Decimal(timer)); }
    } else {
      assert |shown| < |ResendWaitPrefix| + 1;
    }
  }

  class LoginScreen {
    var step: Step
    var phoneNumber: string
    var loading: bool
    var timer: nat
    var error: bool
    /** Send completions scheduled by `SendCode` and not yet run. */
    var pendingSends: nat
    /** Verify completions scheduled by `VerifyCode` and not yet run. */
    var pendingVerifications: nat
    /** The navigation requests emitted so far. */
    var navigation: seq<Route>

    /** The countdown never leaves 0..59. */
    ghost predicate Valid()
      reads this
    {
      timer <= ResendSeconds
    }

    constructor ()
      ensures Valid()
      ensures step == Phone && phoneNumber == "" && !loading && timer == ResendSeconds && !error
      ensures pendingSends == 0 && pendingVerifications == 0 && navigation == []
    {
      step := Phone;
      phoneNumber := "";
      loading := false;
      timer := ResendSeconds;
      error := false;
      pendingSends := 0;
      pendingVerifications := 0;
      navigation := [];
    }

    /** The phone field's `onChangeText`: stores the (already filtered) text
        and clears the error. */
    method ChangePhoneText(text: string)
      requires Valid()
      modifies this
      ensures Valid()
      ensures phoneNumber == text && !error
      ensures step == old(step) && loading == old(loading) && timer == old(timer)
      ensures pendingSends == old(pendingSends) && pendingVerifications == old(pendingVerifications)
      ensures navigation == old(navigation)
    {
      phoneNumber := text;
      error := false;
    }

    /** A keystroke in the phone field: the field filters the raw text and
        hands the digits to `ChangePhoneText`. */
    method TypePhoneText(raw: string)
      requires Valid()
      modifies this
      ensures Valid()
      ensures phoneNumber == KeepDigits(raw) && AllDigits(phoneNumber) && !error
      ensures step == old(step) && loading == old(loading) && timer == old(timer)
      ensures pendingSends == old(pendingSends) && pendingVerifications == old(pendingVerifications)
      ensures navigation == old(navigation)
    {
      ChangePhoneText(KeepDigits(raw));
    }

    /** `handleSendCode`: an invalid number only raises the error; a valid one
        clears it, starts loading and schedules one send completion. */
    method SendCode() returns (scheduled: bool)
      requires Valid()
      modifies this
      ensures Valid()
      ensures scheduled == IsValidNumber(old(phoneNumber))
      ensures error == !scheduled
      ensures loading == (scheduled || old(loading))
      ensures pendingSends == old(pendingSends) + (if scheduled then 1 else 0)
      ensures step == old(step) && timer == old(timer) && phoneNumber == old(phoneNumber)
      ensures pendingVerifications == old(pendingVerifications) && navigation == old(navigation)
    {
      var cleanNumber := KeepDigits(phoneNumber);
      if !MatchesMobilePattern(cleanNumber) {
        error := true;
        scheduled := false;
        return;
      }
      error := false;
      loading := true;
      pendingSends := pendingSends + 1;
      scheduled := true;
    }

    /** The send completion: whatever happened meanwhile (a back press, a
        running countdown) the screen enters the code step with a fresh
        countdown. Nothing cancels it. */
    method CompleteSend()
      requires Valid() && pendingSends > 0
      modifies this
      ensures Valid()
      ensures !loading && step == Otp && timer == ResendSeconds
      ensures pendingSends == old(pendingSends) - 1
      ensures phoneNumber == old(phoneNumber) && error == old(error)
      ensures pendingVerifications == old(pendingVerifications) && navigation == old(navigation)
    {
      loading := false;
      step := Otp;
      timer := ResendSeconds;
      pendingSends := pendingSends - 1;
    }

    /** One firing of the one-second interval, which exists only while the
        code step is shown and the countdown is positive. */
    method Tick()
      requires Valid()
      modifies this
      ensures Valid()
      ensures timer == if old(step) == Otp && old(timer) > 0 then old(timer) - 1 else old(timer)
      ensures step == old(step) && phoneNumber == old(phoneNumber) && loading == old(loading)
      ensures error == old(error) && pendingSends == old(pendingSends)
      ensures pendingVerifications == old(pendingVerifications) && navigation == old(navigation)
    {
      if step == Otp && timer > 0 {
        timer := timer - 1;
      }
    }

    /** `handleVerifyCode`, the code input's completion callback: the code
        itself is not inspected. */
    method VerifyCode(code: string)
      requires Valid()
      modifies this
      ensures Valid()
      ensures loading && pendingVerifications == old(pendingVerifications) + 1
      ensures step == old(step) && phoneNumber == old(phoneNumber) && timer == old(timer)
      ensures error == old(error) && pendingSends == old(pendingSends) && navigation == old(navigation)
    {
      loading := true;
      pendingVerifications := pendingVerifications + 1;
    }

    /** A change in the code row shown in the code step, whose `onComplete`
        is `VerifyCode`: every report of a full row schedules a verification,
        with no guard against reporting the same code twice. */
    method CodeChanged(row: OtpInput.OtpInput, text: string, index: nat)
      requires Valid() && row.Valid() && index < row.length
      modifies this, row`focus, row`completions, row.code
      ensures Valid() && row.Valid()
      ensures row.Cells() ==
        if |text| > 1 then OtpInput.PastedCells(text, row.length) else old(row.Cells())[index := text]
      ensures OtpInput.AllFilled(row.Cells()) ==>
        row.completions == old(row.completions) + [OtpInput.Join(row.Cells())]
        && loading && pendingVerifications == old(pendingVerifications) + 1
      ensures !OtpInput.AllFilled(row.Cells()) ==>
        row.completions == old(row.completions)
        && loading == old(loading) && pendingVerifications == old(pendingVerifications)
      ensures |text| > 1 && OtpInput.AllFilled(row.Cells()) ==>
        row.focus == if old(row.focus) == OtpInput.Cell(row.length - 1) then OtpInput.Blurred else old(row.focus)
      ensures |text| > 1 && !OtpInput.AllFilled(row.Cells()) ==>
        row.focus == OtpInput.Cell(OtpInput.FirstEmpty(row.Cells()).value)
      ensures |text| <= 1 ==>
        row.focus == if text != "" && index < row.length - 1 then OtpInput.Cell(index + 1) else old(row.focus)
      ensures step == old(step) && phoneNumber == old(phoneNumber) && timer == old(timer)
      ensures error == old(error) && pendingSends == old(pendingSends) && navigation == old(navigation)
    {
      row.HandleChange(text, index);
      if OtpInput.AllFilled(row.code[..]) {
        VerifyCode(OtpInput.Join(row.code[..]));
      }
    }

    /** The verify completion: always a success, which leaves for the tabs. */
    method CompleteVerify()
      requires Valid() && pendingVerifications > 0
      modifies this
      ensures Valid()
      ensures !loading && navigation == old(navigation) + [ReplaceTabs]
      ensures pendingVerifications == old(pendingVerifications) - 1
      ensures step == old(step) && phoneNumber == old(phoneNumber) && timer == old(timer)
      ensures error == old(error) && pendingSends == old(pendingSends)
    {
      loading := false;
      navigation := navigation + [ReplaceTabs];
      pendingVerifications := pendingVerifications - 1;
    }

    /** `handleBack`: from the code step back to the phone step (the number is
        kept, the error cleared); from the phone step, leave the screen. */
    method HandleBack()
      requires Valid()
      modifies this
      ensures Valid()
      ensures old(step) == Otp ==> step == Phone && !error && navigation == old(navigation)
      ensures old(step) == Phone ==>
        step == Phone && error == old(error) && navigation == old(navigation) + [GoBack]
      ensures phoneNumber == old(phoneNumber) && loading == old(loading) && timer == old(timer)
      ensures pendingSends == old(pendingSends) && pendingVerifications == old(pendingVerifications)
    {
      if step == Otp {
        step := Phone;
        error := false;
      } else {
        navigation := navigation + [GoBack];
      }
    }
  }

  /** A send whose completion is still pending when the user presses back
      still moves the screen to the code step: the back press has already
      asked the router to leave, and nothing cancels the completion. */
  method BackDuringPendingSend(screen: LoginScreen)
    requires screen.Valid() && screen.step == Phone && IsValidNumber(screen.phoneNumber)
    modifies screen
    ensures screen.step == Otp && screen.timer == ResendSeconds && !screen.loading
    ensures screen.navigation == old(screen.navigation) + [GoBack]
    ensures screen.pendingSends == old(screen.pendingSends)
  {
    var scheduled := screen.SendCode();
    screen.HandleBack();
    screen.CompleteSend();
  }
}
