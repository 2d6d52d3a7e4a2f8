/** The phone-number field of the login screen: the filter applied to every
    edit (only the ASCII digits '0'..'9' survive) and the rule that picks the
    indicator icon shown at the end of the field. */
module PhoneInput {

  /** The character class `[0-9]`. */
  predicate IsDigit(c: char) {
    '0' <= c <= '9'
  }

  predicate AllDigits(s: string) {
    forall i :: 0 <= i < |s| ==> IsDigit(s[i])
  }

  /** `text.replace(/[^0-9]/g, '')`: every character that is not a digit is
      removed, the digits are kept in their order. */
  function KeepDigits(text: string): (numeric: string)
    ensures AllDigits(numeric)
    ensures |numeric| <= |text|
  {
    if text == [] then []
    else if IsDigit(text[0]) then [text[0]] + KeepDigits(text[1..])
    else KeepDigits(text[1..])
  }

  /** `sub` can be obtained from `s` by deleting characters (order kept). */
  predicate IsSubsequence(sub: string, s: string)
    decreases |s|
  {
    if sub == [] then true
    else if s == [] then false
    else (sub[0] == s[0] && IsSubsequence(sub[1..], s[1..])) || IsSubsequence(sub, s[1..])
  }

  /** The filtered text keeps the digits in their original relative order. */
  lemma {:induction false} KeepDigitsIsSubsequence(text: string)
    ensures IsSubsequence(KeepDigits(text), text)
  {
    if text != [] {
      KeepDigitsIsSubsequence(text[1..]);
      if !IsDigit(text[0]) {
        SubsequenceNonEmptyTail(KeepDigits(text[1..]), text);
      }
    }
  }

  lemma SubsequenceNonEmptyTail(sub: string, s: string)
    requires s != [] && IsSubsequence(sub, s[1..])
    ensures IsSubsequence(sub, s)
  {
  }

  /** No digit is lost and nothing else survives: every digit occurs in the
      output exactly as often as in the input. */
  lemma {:induction false} KeepDigitsCounts(text: string, c: char)
    ensures multiset(KeepDigits(text))[c] == if IsDigit(c) then multiset(text)[c] else 0
  {
    if text != [] {
      KeepDigitsCounts(text[1..], c);
      assert text == [text[0]] + text[1..];
      assert multiset(text) == multiset{text[0]} + multiset(text[1..]);
      if IsDigit(text[0]) {
        assert multiset(KeepDigits(text)) == multiset{text[0]} + multiset(KeepDigits(text[1..]));
      }
    }
  }

  /** Text that is already all digits passes the filter unchanged. */
  lemma {:induction false} KeepDigitsOfDigits(text: string)
    requires AllDigits(text)
    ensures KeepDigits(text) == text
  {
    if text != [] {
      KeepDigitsOfDigits(text[1..]);
    }
  }

  /** Text without a digit filters to nothing. */
  lemma {:induction false} KeepDigitsOfSeparators(text: string)
    requires forall i :: 0 <= i < |text| ==> !IsDigit(text[i])
    ensures KeepDigits(text) == []
  {
    if text != [] {
      assert !IsDigit(text[0]);
      forall i | 0 <= i < |text[1..]| ensures !IsDigit(text[1..][i]) {
        assert text[1..][i] == text[i + 1];
      }
      KeepDigitsOfSeparators(text[1..]);
    }
  }

  /** The output is as long as the input exactly when the input was all digits. */
  lemma {:induction false} KeepDigitsLengthIff(text: string)
    ensures |KeepDigits(text)| == |text| <==> AllDigits(text)
  {
    if text != [] {
      KeepDigitsLengthIff(text[1..]);
      if AllDigits(text) {
        assert AllDigits(text[1..]) by {
          forall i | 0 <= i < |text[1..]| ensures IsDigit(text[1..][i]) {
            assert text[1..][i] == text[i + 1];
          }
        }
      } else if IsDigit(text[0]) {
        assert !AllDigits(text[1..]) by {
          var k :| 0 <= k < |text| && !IsDigit(text[k]);
          assert k > 0 && text[1..][k - 1] == text[k];
        }
      }
    }
  }

  /** Filtering twice is filtering once. */
  lemma KeepDigitsIdempotent(text: string)
    ensures KeepDigits(KeepDigits(text)) == KeepDigits(text)
  {
    KeepDigitsOfDigits(KeepDigits(text));
  }

  /** The filter distributes over concatenation, so an edit's digits are
      independent of how the text was split into keystrokes. */
  lemma {:induction false} KeepDigitsAppend(a: string, b: string)
    ensures KeepDigits(a + b) == KeepDigits(a) + KeepDigits(b)
  {
    if a != [] {
      assert (a + b)[1..] == a[1..] + b;
      KeepDigitsAppend(a[1..], b);
    } else {
      assert a + b == b;
    }
  }

  /** The checkmark icon: shown for a nine-character value without error. */
  predicate ShowsCheckmark(value: string, error: bool) {
    |value| == 9 && !error
  }

  /** The alert icon: shown exactly when the field is in error. */
  predicate ShowsAlert(error: bool) {
    error
  }

  /** The two icons are never shown together. */
  lemma IndicatorsExclusive(value: string, error: bool)
    ensures !(ShowsCheckmark(value, error) && ShowsAlert(error))
    ensures ShowsCheckmark(value, error) <==> |value| == 9 && !ShowsAlert(error)
  {
  }
}
