/** The two pieces of text handling the analyses rely on: the substring
    test of `Series.str.contains`, and `str()` of a non-negative integer
    for the total written beside a table. */
module Text {

  /** `pattern` occurs in `text` starting at position `i`. */
  predicate OccursAt(text: string, pattern: string, i: int)
  {
    0 <= i && i + |pattern| <= |text| && text[i..i + |pattern|] == pattern
  }

  /** Whether `pattern` is a substring of `text`, trying each start in
      turn. */
  function Contains(text: string, pattern: string): bool
  {
    if |pattern| > |text| then false
    else text[..|pattern|] == pattern || (|text| > 0 && Contains(text[1..], pattern))
  }

  /** Contains finds a match exactly when one exists. */
  lemma {:induction false} ContainsIff(text: string, pattern: string)
    ensures Contains(text, pattern) <==> exists i :: OccursAt(text, pattern, i)
  {
    if |pattern| <= |text| {
      if text[..|pattern|] == pattern {
        assert OccursAt(text, pattern, 0);
      } else if |text| > 0 {
        ContainsIff(text[1..], pattern);
        if exists i :: OccursAt(text[1..], pattern, i) {
          var i :| OccursAt(text[1..], pattern, i);
          assert text[i + 1..i + 1 + |pattern|] == text[1..][i..i + |pattern|];
          assert OccursAt(text, pattern, i + 1);
        }
        if exists i :: OccursAt(text, pattern, i) {
          var i :| OccursAt(text, pattern, i);
          assert i != 0;
          assert text[1..][i - 1..i - 1 + |pattern|] == text[i..i + |pattern|];
          assert OccursAt(text[1..], pattern, i - 1);
        }
      }
    } else {
      forall i ensures !OccursAt(text, pattern, i) {}
    }
  }

  function DigitChar(d: nat): (c: char)
    requires d < 10
    ensures '0' <= c <= '9' && (c as int) - ('0' as int) == d
  {
    (('0' as int) + d) as char
  }

  predicate AllDigits(s: string)
  {
    forall i :: 0 <= i < |s| ==> '0' <= s[i] <= '9'
  }

  /** `str(n)` for a non-negative integer: its decimal digits, most
      significant first, with no leading zero. */
  function DecimalString(n: nat): (s: string)
    ensures |s| > 0 && AllDigits(s)
    ensures s[0] == '0' ==> n == 0
  {
    if n < 10 then [DigitChar(n)] else DecimalString(n / 10) + [DigitChar(n % 10)]
  }

  /** The number a string of decimal digits spells. */
  function DecimalValue(s: string): nat
    requires AllDigits(s)
  {
    if s == [] then 0
    else DecimalValue(s[..|s| - 1]) * 10 + ((s[|s| - 1] as int) - ('0' as int))
  }

  /** Reading back the rendering of `n` gives `n`. */
  lemma {:induction false} DecimalRoundTrip(n: nat)
    ensures DecimalValue(DecimalString(n)) == n
  {
    if n >= 10 {
      DecimalRoundTrip(n / 10);
      var s := DecimalString(n);
      assert s[..|s| - 1] == DecimalString(n / 10);
    }
  }
}
