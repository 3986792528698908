/**
 * The few string operations the report relies on: substring search
 * (strings.Contains), the first field of a split (strings.Split(s, sep)[0]),
 * and decimal conversion in both directions (strconv.Atoi on a run of digits,
 * strconv.Itoa on a non-negative number).
 */
module Text {

  /** `t` occurs in `s` starting at index `i`. */
  predicate OccursAt(s: string, t: string, i: nat)
  {
    i + |t| <= |s| && s[i..i + |t|] == t
  }

  /** strings.Contains: `t` is a substring of `s`. */
  function Contains(s: string, t: string): (r: bool)
    ensures r <==> exists i: nat :: OccursAt(s, t, i)
    decreases |s|
  {
    if |s| < |t| then false
    else if s[..|t|] == t then
      assert OccursAt(s, t, 0);
      true
    else
      OccursInTail(s, t);
      Contains(s[1..], t)
  }

  /** When `t` is not a prefix of `s`, it occurs in `s` exactly when it occurs in `s[1..]`. */
  lemma OccursInTail(s: string, t: string)
    requires |t| <= |s| && s[..|t|] != t
    ensures (exists i: nat :: OccursAt(s, t, i)) <==> (exists i: nat :: OccursAt(s[1..], t, i))
  {
    if i: nat :| OccursAt(s[1..], t, i) {
      assert s[1..][i..i + |t|] == s[i + 1..i + 1 + |t|];
      assert OccursAt(s, t, i + 1);
    }
    if i: nat :| OccursAt(s, t, i) {
      assert i != 0;
      assert s[1..][i - 1..i - 1 + |t|] == s[i..i + |t|];
      assert OccursAt(s[1..], t, i - 1);
    }
  }

  /**
   * strings.Split(s, [sep])[0]: the longest prefix of `s` free of `sep`, which
   * is all of `s` or stops right before the first `sep`.
   */
  function FirstField(s: string, sep: char): (r: string)
    ensures r <= s
    ensures sep !in r
    ensures r == s || s[|r|] == sep
  {
    if s == [] || s[0] == sep then []
    else [s[0]] + FirstField(s[1..], sep)
  }

  /** `\d` in Go's regular expressions: an ASCII decimal digit. */
  predicate IsDigit(c: char)
  {
    '0' <= c <= '9'
  }

  predicate AllDigits(s: string)
  {
    forall i :: 0 <= i < |s| ==> IsDigit(s[i])
  }

  function DigitValue(c: char): nat
    requires IsDigit(c)
  {
    c as int - '0' as int
  }

  function DigitChar(d: nat): (c: char)
    requires d < 10
    ensures IsDigit(c) && DigitValue(c) == d
  {
    ('0' as int + d) as char
  }

  /** The number a run of decimal digits denotes, most significant digit first. */
  function DecimalValue(ds: string): nat
    requires AllDigits(ds)
  {
    if ds == [] then 0
    else DecimalValue(ds[..|ds| - 1]) * 10 + DigitValue(ds[|ds| - 1])
  }

  /** The largest value of Go's 64-bit int. */
  const MaxInt: nat := 0x7fff_ffff_ffff_ffff

  /**
   * strconv.Atoi applied to a non-empty run of digits: its decimal value,
   * clamped to the largest int when it is out of range.
   */
  function Atoi(ds: string): (n: nat)
    requires AllDigits(ds)
    ensures n <= MaxInt
    ensures DecimalValue(ds) <= MaxInt ==> n == DecimalValue(ds)
    ensures DecimalValue(ds) > MaxInt ==> n == MaxInt
  {
    var v := DecimalValue(ds);
    if v > MaxInt then MaxInt else v
  }

  /** strconv.Itoa on a non-negative number: its shortest decimal form. */
  function DecimalString(n: nat): (r: string)
    ensures |r| >= 1 && AllDigits(r)
    ensures r[0] == '0' ==> r == "0"
    ensures n < 10 <==> |r| == 1
  {
    if n < 10 then [DigitChar(n)]
    else DecimalString(n / 10) + [DigitChar(n % 10)]
  }

  /** Reading back what Itoa printed gives the number. */
  lemma {:induction false} DecimalRoundTrip(n: nat)
    ensures DecimalValue(DecimalString(n)) == n
  {
    var r := DecimalString(n);
    if n >= 10 {
      DecimalRoundTrip(n / 10);
      assert r[..|r| - 1] == DecimalString(n / 10);
    } else {
      assert r[..0] == [];
    }
  }

  /** A digit run without a leading zero, other than "0" itself, is positive. */
  lemma {:induction false} LeadingDigitPositive(ds: string)
    requires |ds| >= 1 && AllDigits(ds) && ds[0] != '0'
    ensures DecimalValue(ds) >= 1
  {
    if |ds| > 1 {
      LeadingDigitPositive(ds[..|ds| - 1]);
    } else {
      assert ds[..0] == [];
    }
  }

  /** Printing a canonical digit run's value with Itoa gives the run back. */
  lemma {:induction false} DecimalStringOfValue(ds: string)
    requires |ds| >= 1 && AllDigits(ds)
    requires ds[0] == '0' ==> ds == "0"
    ensures DecimalString(DecimalValue(ds)) == ds
  {
    var pre := ds[..|ds| - 1];
    var v := DecimalValue(ds);
    if |ds| == 1 {
      assert pre == [] && DecimalValue(pre) == 0;
      assert v == DecimalValue(pre) * 10 + DigitValue(ds[0]);
      assert DecimalString(v) == [DigitChar(v)];
    } else {
      LeadingDigitPositive(pre);
      DecimalStringOfValue(pre);
      assert v / 10 == DecimalValue(pre) && v % 10 == DigitValue(ds[|ds| - 1]);
      assert ds == pre + [ds[|ds| - 1]];
    }
  }
}
