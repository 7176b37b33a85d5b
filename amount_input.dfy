/** The input gate of the amount field (AmountInput.tsx): a typed text is
    forwarded to `onChange` only when it is empty or matches
    `/^[0-9]*\.?[0-9]*$/`; otherwise the event is dropped and the value the
    parent holds stays as it was.  The component keeps no state. */
module AmountInput {
  import opened Wrappers
  import opened JsNumber

  /** The regular expression read as a two-state scan: `afterDot` records
      whether the optional '.' has been consumed. */
  predicate MatchesFrom(s: string, afterDot: bool) {
    if s == [] then true
    else if IsDigit(s[0]) then MatchesFrom(s[1..], afterDot)
    else if s[0] == '.' && !afterDot then MatchesFrom(s[1..], true)
    else false
  }

  /** `/^[0-9]*\.?[0-9]*$/.test(s)`. */
  predicate MatchesAmountPattern(s: string) {
    MatchesFrom(s, false)
  }

  /** The number of '.' characters in `s`. */
  function DotCount(s: string): nat {
    if s == [] then 0 else (if s[0] == '.' then 1 else 0) + DotCount(s[1..])
  }

  /** Reference reading of the gate: only digits and '.', and at most one '.'. */
  predicate IsAmountText(s: string) {
    (forall i :: 0 <= i < |s| ==> IsDigit(s[i]) || s[i] == '.') && DotCount(s) <= 1
  }

  lemma {:induction false} MatchesFromMeans(s: string, afterDot: bool)
    ensures MatchesFrom(s, afterDot) <==>
      (forall i :: 0 <= i < |s| ==> IsDigit(s[i]) || s[i] == '.') &&
      DotCount(s) <= (if afterDot then 0 else 1)
  {
    if s != [] {
      MatchesFromMeans(s[1..], afterDot);
      MatchesFromMeans(s[1..], true);
      assert forall i :: 1 <= i < |s| ==> s[i] == s[1..][i - 1];
    }
  }

  /** The scan accepts exactly the texts of digits with at most one '.'. */
  lemma PatternIsAmountText(s: string)
    ensures MatchesAmountPattern(s) <==> IsAmountText(s)
  {
    MatchesFromMeans(s, false);
  }

  /** `handleChange`: the text forwarded to `onChange`, or None when the
      event is dropped. */
  function HandleChange(text: string): (forwarded: Option<string>)
    ensures forwarded.Some? <==> IsAmountText(text)
    ensures forwarded.Some? ==> forwarded.value == text
  {
    PatternIsAmountText(text);
    if text == "" || MatchesAmountPattern(text) then Some(text) else None
  }

  /** The value held by the parent after one change event. */
  function HeldAfter(held: string, text: string): (r: string)
    ensures r == text || r == held
    ensures IsAmountText(text) ==> r == text
    ensures !IsAmountText(text) ==> r == held
  {
    HandleChange(text).GetOr(held)
  }

  /** The empty text, a lone '.', a trailing '.' and a leading '.' all pass. */
  lemma AcceptedForms()
    ensures HandleChange("") == Some("")
    ensures HandleChange(".") == Some(".")
    ensures HandleChange("5.") == Some("5.")
    ensures HandleChange(".5") == Some(".5")
    ensures HandleChange("12.50") == Some("12.50")
  {
    assert IsAmountText("") && IsAmountText(".");
    assert DotCount("5.") == 1 && IsAmountText("5.");
    assert DotCount(".5") == 1 && IsAmountText(".5");
    assert DotCount("12.50") == 1 && IsAmountText("12.50");
  }

  /** A character other than a digit or '.' anywhere drops the event. */
  lemma RejectsForeignCharacter(text: string, i: nat, held: string)
    requires i < |text| && !IsDigit(text[i]) && text[i] != '.'
    ensures HandleChange(text) == None
    ensures HeldAfter(held, text) == held
  {
  }

  lemma {:induction false} TwoDotsCount(s: string, i: nat, j: nat)
    requires i < j < |s| && s[i] == '.' && s[j] == '.'
    ensures DotCount(s) >= 2
  {
    if i == 0 {
      DotsCountAtLeastOne(s[1..], j - 1);
    } else {
      TwoDotsCount(s[1..], i - 1, j - 1);
    }
  }

  lemma {:induction false} DotsCountAtLeastOne(s: string, j: nat)
    requires j < |s| && s[j] == '.'
    ensures DotCount(s) >= 1
  {
    if j > 0 {
      DotsCountAtLeastOne(s[1..], j - 1);
    }
  }

  /** Two or more '.' characters drop the event. */
  lemma RejectsTwoDots(text: string, i: nat, j: nat)
    requires i < j < |text| && text[i] == '.' && text[j] == '.'
    ensures HandleChange(text) == None
  {
    TwoDotsCount(text, i, j);
  }

  /** Whatever `toFixed(6)` writes passes the gate, so the amount that a
      reversal moves into the editable field is text the field accepts. */
  lemma FormattedAmountIsAccepted(x: real)
    requires x >= 0.0
    ensures HandleChange(ToFixed6(x)) == Some(ToFixed6(x))
  {
    ToFixed6Shape(x);
    var s := ToFixed6(x);
    DigitsDotDigits(s, |s| - 7);
  }

  /** Digits, one '.', digits: amount text. */
  lemma DigitsDotDigits(s: string, p: nat)
    requires p < |s| && s[p] == '.' && AllDigits(s[..p]) && AllDigits(s[p + 1..])
    ensures IsAmountText(s)
  {
    DotCountSplit(s, p);
    assert forall i :: 0 <= i < p ==> s[i] == s[..p][i];
    assert forall i :: p < i < |s| ==> s[i] == s[p + 1..][i - p - 1];
  }

  lemma DotCountSplit(s: string, p: nat)
    requires p < |s| && s[p] == '.' && AllDigits(s[..p]) && AllDigits(s[p + 1..])
    ensures DotCount(s) == 1
  {
    assert s == s[..p] + ([s[p]] + s[p + 1..]);
    DigitsHaveNoDot(s[..p]);
    DigitsHaveNoDot(s[p + 1..]);
    DotCountAppend(s[..p], [s[p]] + s[p + 1..]);
    DotCountAppend([s[p]], s[p + 1..]);
    assert DotCount([s[p]]) == 1;
  }

  lemma {:induction false} DigitsHaveNoDot(s: string)
    requires AllDigits(s)
    ensures DotCount(s) == 0
  {
    if s != [] {
      DigitsHaveNoDot(s[1..]);
    }
  }

  lemma {:induction false} DotCountAppend(a: string, b: string)
    ensures DotCount(a + b) == DotCount(a) + DotCount(b)
  {
    if a == [] {
      assert a + b == b;
    } else {
      assert (a + b)[1..] == a[1..] + b;
      DotCountAppend(a[1..], b);
    }
  }
}
