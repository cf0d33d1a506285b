/**
  The two string operations the reports need: Python's `str(n)` for a
  non-negative count, and `"\n".join(lines)`.
 */
module Text {

  const Digits: string := "0123456789"

  /** Decimal rendering of a count, as an f-string renders `len(...)`. */
  function NatToString(n: nat): (r: string)
    decreases n
  {
    if n < 10 then [Digits[n]] else NatToString(n / 10) + [Digits[n % 10]]
  }

  function DigitValue(c: char): nat
  {
    if '0' <= c <= '9' then (c - '0') as nat else 0
  }

  /** Reads a string of decimal digits back as a number. */
  function DecimalValue(s: string): nat
    decreases |s|
  {
    if |s| == 0 then 0 else 10 * DecimalValue(s[..|s| - 1]) + DigitValue(s[|s| - 1])
  }

  /** Counts printed in the reports read back as the counts they render. */
  lemma {:induction false} NatToStringRoundTrip(n: nat)
    ensures DecimalValue(NatToString(n)) == n
    ensures |NatToString(n)| > 0
    ensures forall k :: 0 <= k < |NatToString(n)| ==> '0' <= NatToString(n)[k] <= '9'
    ensures NatToString(n)[0] == '0' <==> n == 0
    ensures |NatToString(n)| > 1 ==> NatToString(n)[0] != '0'
    decreases n
  {
    NatToStringCanonical(n);
    if n >= 10 {
      NatToStringRoundTrip(n / 10);
      var s := NatToString(n);
      assert s[..|s| - 1] == NatToString(n / 10);
    }
  }

  /** The rendering uses decimal digits only, with a leading zero only for zero itself, as `str(n)` does. */
  lemma {:induction false} NatToStringCanonical(n: nat)
    ensures |NatToString(n)| > 0
    ensures forall k :: 0 <= k < |NatToString(n)| ==> '0' <= NatToString(n)[k] <= '9'
    ensures NatToString(n)[0] == '0' <==> n == 0
    decreases n
  {
    var s := NatToString(n);
    if n < 10 {
      assert s == [Digits[n]];
    } else {
      NatToStringCanonical(n / 10);
      var prefix := NatToString(n / 10);
      var last := Digits[n % 10];
      assert s == prefix + [last];
      assert '0' <= last <= '9';
      assert s[0] == prefix[0];
      forall k | 0 <= k < |s|
        ensures '0' <= s[k] <= '9'
      {
        if k < |prefix| {
          assert s[k] == prefix[k];
        } else {
          assert s[k] == last;
        }
      }
    }
  }

  /** `"\n".join(lines)`. */
  function JoinLines(lines: seq<string>): string
    decreases |lines|
  {
    if |lines| == 0 then ""
    else if |lines| == 1 then lines[0]
    else lines[0] + "\n" + JoinLines(lines[1..])
  }

  predicate StartsWith(s: string, prefix: string)
  {
    |prefix| <= |s| && s[..|prefix|] == prefix
  }

  predicate EndsWith(s: string, suffix: string)
  {
    |suffix| <= |s| && s[|s| - |suffix|..] == suffix
  }

  /** The joined text begins with the first line and ends with the last. */
  lemma {:induction false} JoinLinesBounds(lines: seq<string>)
    requires |lines| > 0
    ensures StartsWith(JoinLines(lines), lines[0])
    ensures EndsWith(JoinLines(lines), lines[|lines| - 1])
    decreases |lines|
  {
    if |lines| > 1 {
      JoinLinesBounds(lines[1..]);
      var rest := JoinLines(lines[1..]);
      var whole := lines[0] + "\n" + rest;
      assert whole[|whole| - |rest|..] == rest;
      var last := lines[|lines| - 1];
      assert rest[|rest| - |last|..] == last;
      assert whole[|whole| - |last|..] == rest[|rest| - |last|..];
    }
  }
}
