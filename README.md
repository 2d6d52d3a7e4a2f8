# YONIMA onboarding and login flow in Dafny

A model of the event-driven logic behind the YONIMA mobile app's first
screens, with proofs of what each step does:

- **PhoneInput** (`phone_input.dfy`): the phone field's digit filter
  (`[^0-9]` removed) and the rule that picks its checkmark or alert icon.
- **Login** (`login.dfy`): the login screen as a class with the screen's
  state (`step`, `phoneNumber`, `loading`, `timer`, `error`). The Senegalese
  mobile-number pattern `^(70|71|75|76|77|78)[0-9]{7}$` is a matcher, proved
  equal to a closed form. The simulated send and verify calls are split in
  two: the handler schedules a completion, and a separate completion
  operation runs it. The one-second interval is a `Tick` operation. Any
  order of user events, completions and ticks can be played against the
  model. A pending send is never cancelled, so a back press does not stop
  it. The resend label is proved to announce exactly the remaining seconds.
- **OtpInput** (`otp_input.dfy`): the code row as an `array<string>` of
  cells with a focused index. Covered: the paste loop, single-character
  edits, backspace-on-empty, and the log of `onComplete` reports.
- **OnboardingStatus** (`onboarding_status.dfy`): the first-launch flags over
  a key-value store whose reads, writes and removes may fail. Reads fail
  open; failed writes and removes change nothing.
- **Onboarding** (`onboarding.dfy`): the three-slide
  carousel. The index follows the list's viewability reports. The callback
  compares each report with the value 0 that it captured on the first
  render, so swiping back to the first slide never moves the index back.
  `SwipeBackThenNext` shows the consequence: the next control then asks for
  the third slide.

Router calls and `scrollToIndex` calls are recorded as logs of emitted
requests. Keyboard focus is recorded as the focused cell index. Store
failures are a `bool` parameter of each store operation.

The model follows the code as written, including:

- The resend control has no press handler, so pressing it does nothing.
- Verification accepts any code and has no failure outcome.
- Nothing stops a full code from being reported twice (`RetypeInFullRow`).
- Neither completion is cancelled.

## Model

| member | source | states |
|---|---|---|
| `PhoneInput.KeepDigits` | components/auth/PhoneInput.tsx:17-19 | the filtered text holds only '0'..'9' and is never longer than the input |
| `PhoneInput.KeepDigitsIsSubsequence` | components/auth/PhoneInput.tsx:18 | the filtered text is a subsequence of the input: the digits keep their relative order |
| `PhoneInput.KeepDigitsCounts` | components/auth/PhoneInput.tsx:18 | each digit occurs in the output as often as in the input; no other character survives |
| `PhoneInput.KeepDigitsOfDigits` | components/auth/PhoneInput.tsx:18 | text made only of digits passes unchanged |
| `PhoneInput.KeepDigitsOfSeparators` | components/auth/PhoneInput.tsx:18 | text without any digit filters to the empty string |
| `PhoneInput.KeepDigitsLengthIff` | components/auth/PhoneInput.tsx:18 | the output length equals the input length iff the input was all digits |
| `PhoneInput.KeepDigitsIdempotent` | components/auth/PhoneInput.tsx:18 | filtering an already filtered string returns it unchanged |
| `PhoneInput.KeepDigitsAppend` | components/auth/PhoneInput.tsx:18 | filtering a concatenation is concatenating the filtered parts |
| `PhoneInput.IndicatorsExclusive` | components/auth/PhoneInput.tsx:51-56 | the checkmark shows iff the value has 9 characters and there is no error; the alert shows iff error; never both |
| `Login.MatchesDigitsIff` | app/auth/login.tsx:48 | `[0-9]{n}` matches a whole string iff it has length n and is all digits |
| `Login.MobilePatternIff` | app/auth/login.tsx:48 | the pattern accepts exactly 9 digits starting with 70, 71, 75, 76, 77 or 78 |
| `Login.ValidNumberIgnoresSeparators` | app/auth/login.tsx:47-48 | non-digit characters anywhere in the entered number do not change validity, since only its digits are matched |
| `Login.Decimal` | app/auth/login.tsx:187 | the rendered number is a digit string without padding: one character iff below 10, two iff 10..99, starting with '0' only for 0 |
| `Login.DecimalRoundTrip` | app/auth/login.tsx:187 | reading back the rendered number gives the number |
| `Login.LeadingZero` | app/auth/login.tsx:187 | a leading "0" does not change the value read |
| `Login.CountdownText` | app/auth/login.tsx:187 | the shown countdown has at least two digits, exactly two below 100, and starts with '0' exactly for values below 10 (1..9 become "0" plus the digit, 10..59 are unpadded) |
| `Login.ResendLabelRoundTrip` | app/auth/login.tsx:183-190 | while the resend control is disabled (timer > 0), its label announces exactly the timer's value; at 0 it is the plain "Renvoyer le code" and announces nothing |
| `Login.LoginScreen.constructor` | app/auth/login.tsx:27-31 | the screen starts in the phone step with an empty number, not loading, no error, timer 59 and nothing pending |
| `Login.LoginScreen.ChangePhoneText` | app/auth/login.tsx:139-142 | an edit replaces the number and always clears the error, nothing else changes |
| `Login.LoginScreen.TypePhoneText` | app/auth/login.tsx:137-144 | a keystroke stores the filtered digits of the field's text and clears the error |
| `Login.LoginScreen.SendCode` | app/auth/login.tsx:44-66 | a send is scheduled iff the digits of the number match the pattern; invalid: error set, step, loading, timer and number unchanged, nothing scheduled; valid: error cleared, loading set, one completion scheduled |
| `Login.LoginScreen.CompleteSend` | app/auth/login.tsx:61-65 | a send completion always enters the code step, stops loading and restarts the countdown at 59, whatever the step and timer were |
| `Login.LoginScreen.Tick` | app/auth/login.tsx:34-42 | a tick decrements the timer only in the code step with a positive timer, so the timer never goes below 0 and stays within 0..59 |
| `Login.LoginScreen.VerifyCode` | app/auth/login.tsx:68-70 | verifying any code sets loading and schedules one completion |
| `Login.LoginScreen.CodeChanged` | app/auth/login.tsx:167-170 | each change of the code row that leaves it full schedules one verification of the joined code, with no duplicate guard; otherwise nothing is scheduled; the row's cells and focus change as `HandleChange` states |
| `Login.LoginScreen.CompleteVerify` | app/auth/login.tsx:71-75 | a verify completion always stops loading and requests the tabs screen; there is no failure outcome |
| `Login.LoginScreen.HandleBack` | app/auth/login.tsx:78-85 | back from the code step returns to the phone step, clears the error and keeps the number; back from the phone step only requests leaving the screen |
| `Login.BackDuringPendingSend` | app/auth/login.tsx:44-85 | a valid send followed by back in the phone step still ends in the code step with a fresh countdown: nothing cancels the completion |
| `OtpInput.Join` | components/auth/OTPInput.tsx:29 | the code reported for a full row has exactly one character per cell |
| `OtpInput.FirstEmpty` | components/auth/OTPInput.tsx:33 | the index found is the lowest empty cell, and none is found iff every cell is filled |
| `OtpInput.PasteCell` | components/auth/OTPInput.tsx:23-25 | every cell written by a paste is empty or one character |
| `OtpInput.PastedCells` | components/auth/OTPInput.tsx:22-26 | a paste yields exactly `length` cells, each empty or one character |
| `OtpInput.PasteFillsIff` | components/auth/OTPInput.tsx:22-28 | a paste fills every cell iff the pasted text has at least `length` characters |
| `OtpInput.PasteFirstEmpty` | components/auth/OTPInput.tsx:28-35 | after a short paste the first empty cell is the one right after the pasted text |
| `OtpInput.PasteJoinRoundTrip` | components/auth/OTPInput.tsx:23-29 | joining the pasted cells gives back the pasted text cut to `length` |
| `OtpInput.JoinOfFullRow` | components/auth/OTPInput.tsx:49-50 | the joined code of a full row has the row's length and holds the cells' characters in order |
| `OtpInput.OtpInput.constructor` | components/auth/OTPInput.tsx:10-11 | the row starts as `length` empty cells with nothing reported |
| `OtpInput.OtpInput.AutoFocus` | components/auth/OTPInput.tsx:65-68 | after mounting, the first cell is focused when there is one |
| `OtpInput.OtpInput.FocusCell` | components/auth/OTPInput.tsx:14-16 | focusing moves the focus to an existing cell and ignores indices past the row |
| `OtpInput.OtpInput.DistributePaste` | components/auth/OTPInput.tsx:23-26 | the paste loop sets every cell i to the i-th pasted character, or empty past the text |
| `OtpInput.OtpInput.HandleChange` | components/auth/OTPInput.tsx:18-52 | a paste rewrites the whole row whatever the edited index; a single-character edit changes only its own cell; the full row is reported once per change that leaves it full; focus moves to the next cell only after a non-empty single edit below the last index, to the first empty cell after a short paste, and off the last cell after a full paste |
| `OtpInput.OtpInput.HandleKeyPress` | components/auth/OTPInput.tsx:54-63 | backspace on an empty cell past the first clears and focuses the previous cell; every other key press changes nothing |
| `OtpInput.PasteFullCode` | components/auth/OTPInput.tsx:22-30 | pasting at least `length` characters into any cell fills the row and reports the text cut to `length` exactly once |
| `OtpInput.RetypeInFullRow` | components/auth/OTPInput.tsx:39-51 | re-entering a full row's own character leaves the row unchanged and reports the same code again |
| `OnboardingStatus.KeyValueStore.GetItem` | hooks/use-onboarding-status.ts:16 | a read returns the stored value, none when the key is absent, or a failure |
| `OnboardingStatus.KeyValueStore.SetItem` | hooks/use-onboarding-status.ts:33 | a successful write stores the value under the key; a failed one changes nothing |
| `OnboardingStatus.KeyValueStore.RemoveItem` | hooks/use-onboarding-status.ts:42 | a successful remove deletes the key; a failed one changes nothing |
| `OnboardingStatus.Completed` | hooks/use-onboarding-status.ts:33 | completion stores "true" under the onboarding key and leaves every other entry as it was |
| `OnboardingStatus.Reset` | hooks/use-onboarding-status.ts:42 | a reset removes the onboarding key and leaves every other entry as it was |
| `OnboardingStatus.CompletedThenCheck` | hooks/use-onboarding-status.ts:16-34 | after a successful completion, every later check says not first launch |
| `OnboardingStatus.ResetThenCheck` | hooks/use-onboarding-status.ts:16-43 | after a successful reset, a later successful check says first launch |
| `OnboardingStatus.OnboardingStatusHook.constructor` | hooks/use-onboarding-status.ts:7-8 | a fresh instance is not first launch and is loading |
| `OnboardingStatus.OnboardingStatusHook.CheckOnboardingStatus` | hooks/use-onboarding-status.ts:14-29 | a check says first launch iff the read succeeds and the key is absent; any stored value, or a failed read, means not first launch (fail open); loading always ends |
| `OnboardingStatus.OnboardingStatusHook.SetOnboardingCompleted` | hooks/use-onboarding-status.ts:31-38 | on success, "true" is stored and the flag cleared; on failure store and flags are unchanged |
| `OnboardingStatus.OnboardingStatusHook.ResetOnboarding` | hooks/use-onboarding-status.ts:40-47 | on success, the entry is removed and the flag set; on failure store and flags are unchanged |
| `OnboardingStatus.Relaunch` | hooks/use-onboarding-status.ts:10-12 | a new instance over the same store runs its mount check and ends with the flag that check gives |
| `OnboardingStatus.CompleteThenRelaunch` | hooks/use-onboarding-status.ts:10-38 | after a successful completion, a new instance is not first launch, whether or not its read fails |
| `Onboarding.BackTarget` | app/onboarding.tsx:81-88 | back asks for a scroll iff the back control is shown (index > 0), and then to the previous slide |
| `Onboarding.NextActionAt` | app/onboarding.tsx:70-79 | next scrolls to the following slide iff the index is below the last one, otherwise it finishes |
| `Onboarding.NextFinishesIffStartLabel` | app/onboarding.tsx:158-166 | the next control finishes exactly on the slide where it shows the "YONIMA" label |
| `Onboarding.SwipeBackToFirstIsIgnored` | app/onboarding.tsx:60-68 | a report that the first slide is visible never changes the index |
| `Onboarding.IndexNeverReturnsToFirst` | app/onboarding.tsx:60-68 | once the index has left slide 0, no series of reports brings it back to 0 |
| `Onboarding.SwipeBackThenNext` | app/onboarding.tsx:60-79 | after swiping to slide 1 and back to slide 0, the index stays 1 and next asks for slide 2 |
| `Onboarding.OnboardingScreen.constructor` | app/onboarding.tsx:48 | the carousel starts on slide 0 with nothing requested |
| `Onboarding.OnboardingScreen.OnViewableItemsChanged` | app/onboarding.tsx:60-68 | the index takes the first viewable item's index only when it is present, non-null and not the captured 0; it stays within the three slides |
| `Onboarding.OnboardingScreen.FinishOnboarding` | app/onboarding.tsx:94-97 | finishing marks completion first (which may fail silently) and then always requests the login screen |
| `Onboarding.OnboardingScreen.HandleNext` | app/onboarding.tsx:70-79 | below the last slide next requests a scroll to the next slide and changes nothing else; on the last slide it finishes |
| `Onboarding.OnboardingScreen.HandleBack` | app/onboarding.tsx:81-88 | back requests a scroll to the previous slide only when the index is above 0 |
| `Onboarding.OnboardingScreen.HandleSkip` | app/onboarding.tsx:90-92 | skip finishes from any slide |

## Left out

- Real time: the 1500 ms send and verify delays, the 1000 ms interval and the 100 ms auto-focus delay. Completions and ticks are separate operations that the caller may run in any order.
- Component lifetimes: a completion that fires after its screen was left still updates the screen object. The code row is not remounted on each entry to the code step; a fresh `OtpInput` object stands for a new row.
- Platform effects: keyboard dismissal, haptics, animations, and the `maxLength` limits that the text fields enforce (9 for the phone field, 6 per code cell).
- The resend control: it has no press handler, so only its label and enabled state are modelled.
- The onboarding screen's own hook instance also runs a mount check. Its flags are never read there, so only its completion write is modelled.
- Everything else in the app: the splash animation, slide parallax, pagination dots, theme tables, and the root layout's routing on the three flags.
- JavaScript string details: `split('')` is a per-character split, and `[0-9]` means the ASCII digits.
