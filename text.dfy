/**
 * String operations the detector app relies on: Python's substring test
 * `part in text` and the decimal rendering of a count inside an f-string.
 */
module Text {

  /** `part` occurs in `text` starting at index `i`: the independent meaning of "substring". */
  ghost predicate OccursAt(text: string, part: string, i: int)
  {
    0 <= i && i + |part| <= |text| && text[i..i + |part|] == part
  }

  /** Shifting the start index by one matches dropping the first character of `text`. */
  lemma OccursAtTail(text: string, part: string)
    requires text != []
    ensures forall i :: 0 <= i ==> (OccursAt(text[1..], part, i) <==> OccursAt(text, part, i + 1))
  {
    forall i | 0 <= i
      ensures OccursAt(text[1..], part, i) <==> OccursAt(text, part, i + 1)
    {
      if 0 <= i && i + |part| <= |text| - 1 {
        assert text[1..][i..i + |part|] == text[i + 1..i + 1 + |part|];
      }
    }
  }

  /**
   * Python's `part in text`: true exactly when `part` occurs somewhere in `text`
   * (the empty string occurs in every string).
   */
  function Contains(text: string, part: string): (r: bool)
    ensures r <==> exists i :: OccursAt(text, part, i)
  {
    if part <= text then
      assert OccursAt(text, part, 0);
      true
    else if text == [] then
      assert forall i :: !OccursAt(text, part, i);
      false
    else
      OccursAtTail(text, part);
      assert !OccursAt(text, part, 0);
      assert forall i :: OccursAt(text, part, i) ==> OccursAt(text[1..], part, i - 1);
      Contains(text[1..], part)
  }

  /** The decimal digit character for `d`. */
  function DigitChar(d: nat): (c: char)
    requires d < 10
    ensures IsDigit(c) && DigitValue(c) == d
  {
    "0123456789"[d]
  }

  predicate IsDigit(c: char)
  {
    '0' <= c <= '9'
  }

  function DigitValue(c: char): nat
    requires IsDigit(c)
  {
    (c as int - '0' as int) as nat
  }

  /** The number a string of decimal digits denotes, read most significant digit first. */
  function DecimalValue(s: string): nat
    requires forall k :: 0 <= k < |s| ==> IsDigit(s[k])
  {
    if s == [] then 0 else 10 * DecimalValue(s[..|s| - 1]) + DigitValue(s[|s| - 1])
  }

  /**
   * How `f"{n}"` renders a non-negative integer: decimal digits, no sign,
   * no leading zero, denoting exactly `n`.
   */
  function DecimalString(n: nat): (r: string)
    ensures |r| > 0
    ensures forall k :: 0 <= k < |r| ==> IsDigit(r[k])
    ensures DecimalValue(r) == n
    ensures r[0] == '0' ==> n == 0 && |r| == 1
  {
    if n < 10 then
      [DigitChar(n)]
    else
      var front := DecimalString(n / 10);
      var r := front + [DigitChar(n % 10)];
      assert r[..|r| - 1] == front;
      r
  }
}
