/** The email-code screen: the code field keeps only digits and at most
    six of them, the verify button checks only that six digits were
    entered, and the resend button starts a 60-second cooldown that a
    one-second timer counts down. Time is modelled as discrete ticks. */
module EmailConfirmation {
  import opened Base
  import opened Numerals

  /** The screen's state. */
  datatype ConfirmState = ConfirmState(
    code: string,
    isVerifying: bool,
    error: string,
    resendCooldown: nat)

  const CodeLength: nat := 6
  const ResendCooldownSeconds: nat := 60

  function InvalidCodeMessage(lang: Language): string {
    match lang
    case Sk => "Neplatný overovací kód"
    case En => "Invalid verification code"
  }

  // ---------------------------------------------------------------------
  // The code field

  /** `value.replace(/\D/g, '')`: every character that is not an ASCII
      digit removed. */
  function KeepDigits(s: string): (r: string)
    ensures AllDigits(r) && |r| <= |s|
  {
    if s == [] then []
    else if IsDigit(s[0]) then [s[0]] + KeepDigits(s[1..])
    else KeepDigits(s[1..])
  }

  /** The number of ASCII digits in `s`, counted from the end. */
  function DigitCount(s: string): nat {
    if s == [] then 0
    else DigitCount(s[..|s| - 1]) + (if IsDigit(s[|s| - 1]) then 1 else 0)
  }

  /** `value.replace(/\D/g, '').slice(0, 6)`. */
  function SanitizeCode(s: string): (r: string)
    ensures AllDigits(r) && |r| <= CodeLength
  {
    var digits := KeepDigits(s);
    if |digits| <= CodeLength then digits else digits[..CodeLength]
  }

  /** Removing non-digits distributes over concatenation. */
  lemma {:induction false} KeepDigitsAppend(a: string, b: string)
    ensures KeepDigits(a + b) == KeepDigits(a) + KeepDigits(b)
  {
    if a != [] {
      assert (a + b)[1..] == a[1..] + b;
      KeepDigitsAppend(a[1..], b);
    } else {
      assert a + b == b;
    }
  }

  /** A digit string is left as it is. */
  lemma {:induction false} KeepDigitsOfDigits(s: string)
    requires AllDigits(s)
    ensures KeepDigits(s) == s
  {
    if s != [] {
      KeepDigitsOfDigits(s[1..]);
    }
  }

  /** Cutting the input anywhere cuts the kept digits at the matching
      place: the digits keep their order. */
  lemma KeepDigitsSplit(s: string, i: nat)
    requires i <= |s|
    ensures KeepDigits(s) == KeepDigits(s[..i]) + KeepDigits(s[i..])
  {
    assert s == s[..i] + s[i..];
    KeepDigitsAppend(s[..i], s[i..]);
  }

  /** Every digit of the input is kept: their number equals the input's
      digit count. */
  lemma {:induction false} KeepDigitsCount(s: string)
    ensures |KeepDigits(s)| == DigitCount(s)
  {
    if s != [] {
      var init, last := s[..|s| - 1], s[|s| - 1];
      KeepDigitsCount(init);
      assert s == init + [last];
      KeepDigitsAppend(init, [last]);
      assert KeepDigits([last]) == if IsDigit(last) then [last] else [] by {
        assert [last][1..] == [];
      }
    }
  }

  /** The sanitised code is the first min(6, k) digits of the input, where
      k is the number of digits the input holds. */
  lemma SanitizeTakesLeadingDigits(s: string)
    ensures var k := DigitCount(s);
      |SanitizeCode(s)| == (if k <= CodeLength then k else CodeLength)
    ensures SanitizeCode(s) <= KeepDigits(s)
  {
    KeepDigitsCount(s);
  }

  /** Sanitising a sanitised code changes nothing. */
  lemma SanitizeIdempotent(s: string)
    ensures SanitizeCode(SanitizeCode(s)) == SanitizeCode(s)
  {
    KeepDigitsOfDigits(SanitizeCode(s));
  }

  /** Typing more characters after a full six-digit code leaves the code as
      it was, and stray characters among the digits are ignored. */
  lemma SanitizeIgnoresExtra(code: string, extra: string)
    requires |code| == CodeLength && AllDigits(code)
    ensures SanitizeCode(code + extra) == code
  {
    KeepDigitsAppend(code, extra);
    KeepDigitsOfDigits(code);
    assert (code + KeepDigits(extra))[..CodeLength] == code;
  }

  /** An edit of the code field: the sanitised value is stored and any
      error is cleared. */
  function HandleCodeChange(s: ConfirmState, input: string): (r: ConfirmState)
    ensures r.code == SanitizeCode(input) && r.error == ""
    ensures r.isVerifying == s.isVerifying && r.resendCooldown == s.resendCooldown
    ensures VerifyEnabled(r) <==> |KeepDigits(input)| >= CodeLength && !s.isVerifying
  {
    s.(code := SanitizeCode(input), error := "")
  }

  // ---------------------------------------------------------------------
  // Verifying

  /** The verify button is enabled with six characters entered and no
      verification running. */
  predicate VerifyEnabled(s: ConfirmState) {
    !(|s.code| != CodeLength || s.isVerifying)
  }

  /** One press of the verify button: the state while it waits, and whether
      it started and whether `onVerified` was called. */
  datatype VerifyOutcome = VerifyOutcome(
    waiting: ConfirmState,
    state: ConfirmState,
    started: bool,
    verified: bool)

  /** `handleVerify`. A code that is not six characters long is rejected at
      once with the invalid-code error. Otherwise the screen shows itself
      busy, waits (the simulated delay), then re-checks only the length of
      the code it was started with and calls `onVerified`; the stored code
      of the booking is never consulted. */
  function HandleVerify(s: ConfirmState, lang: Language): (r: VerifyOutcome)
    ensures |s.code| != CodeLength <==> !r.started
    ensures !r.started ==> r.state == s.(error := InvalidCodeMessage(lang)) && !r.verified
    ensures r.started ==> r.waiting.isVerifying && r.waiting.error == "" && !VerifyEnabled(r.waiting)
    ensures r.verified <==> r.started
    ensures r.started ==> !r.state.isVerifying
    ensures r.state.code == s.code && r.state.resendCooldown == s.resendCooldown
  {
    if |s.code| != CodeLength then
      var rejected := s.(error := InvalidCodeMessage(lang));
      VerifyOutcome(rejected, rejected, false, false)
    else
      var waiting := s.(isVerifying := true, error := "");
      var accepted := |s.code| == CodeLength;
      var after := if accepted then waiting else waiting.(error := InvalidCodeMessage(lang));
      VerifyOutcome(waiting, after.(isVerifying := false), true, accepted)
  }

  /** While no verification is running, the verify button is enabled
      exactly when a press would start a verification, and a press of the
      enabled button always ends in `onVerified`. While one is running the
      button is disabled. */
  lemma EnabledVerifyAccepts(s: ConfirmState, lang: Language)
    ensures !s.isVerifying ==> (VerifyEnabled(s) <==> HandleVerify(s, lang).started)
    ensures VerifyEnabled(s) ==> HandleVerify(s, lang).verified
    ensures s.isVerifying ==> !VerifyEnabled(s)
  {
  }

  /** Any six-digit entry is accepted: two different codes of six digits
      lead to the same outcome. */
  lemma AnySixDigitsVerify(s: ConfirmState, other: string, lang: Language)
    requires |s.code| == CodeLength && |other| == CodeLength
    ensures HandleVerify(s, lang).verified
    ensures HandleVerify(s.(code := other), lang).verified
  {
  }

  // ---------------------------------------------------------------------
  // Resending

  /** The resend button is enabled once the cooldown has run out. */
  predicate ResendEnabled(s: ConfirmState): (b: bool)
    ensures b <==> Tick(s) == s
  {
    !(s.resendCooldown > 0)
  }

  /** `handleResend`: start the cooldown; nothing else changes. */
  function HandleResend(s: ConfirmState): (r: ConfirmState)
    ensures r.resendCooldown == ResendCooldownSeconds && !ResendEnabled(r)
    ensures r.code == s.code && r.error == s.error && r.isVerifying == s.isVerifying
  {
    s.(resendCooldown := ResendCooldownSeconds)
  }

  /** One second of the cooldown timer: a running cooldown drops by one, a
      finished one stays at zero (no timer is set then). */
  function Tick(s: ConfirmState): (r: ConfirmState)
    ensures r.resendCooldown == if s.resendCooldown > 0 then s.resendCooldown - 1 else 0
    ensures r.code == s.code && r.error == s.error && r.isVerifying == s.isVerifying
  {
    if s.resendCooldown > 0 then s.(resendCooldown := s.resendCooldown - 1) else s
  }

  function Ticks(s: ConfirmState, n: nat): ConfirmState
    decreases n
  {
    if n == 0 then s else Ticks(Tick(s), n - 1)
  }

  /** After n ticks the cooldown has dropped by n, but never below zero, and
      nothing else has changed. */
  lemma {:induction false} TicksCountDown(s: ConfirmState, n: nat)
    decreases n
    ensures Ticks(s, n).resendCooldown == if n < s.resendCooldown then s.resendCooldown - n else 0
    ensures Ticks(s, n).code == s.code && Ticks(s, n).error == s.error
    ensures Ticks(s, n).isVerifying == s.isVerifying
  {
    if n > 0 {
      TicksCountDown(Tick(s), n - 1);
    }
  }

  /** After a resend the button is disabled for exactly 60 ticks. */
  lemma ResendReenabledAfterSixty(s: ConfirmState, n: nat)
    ensures ResendEnabled(Ticks(HandleResend(s), n)) <==> n >= ResendCooldownSeconds
    ensures Ticks(HandleResend(s), n).code == s.code
  {
    TicksCountDown(HandleResend(s), n);
  }
}
