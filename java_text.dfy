/** The two pieces of java.lang.String the controllers rely on:
    `trim()` followed by `isEmpty()` for input validation, and
    `String.valueOf(int)` for room codes. */
module JavaText {

  /** `trim()` removes every character whose code is at most U+0020. */
  predicate IsTrimmable(c: char) {
    c <= ' '
  }

  /** The suffix of `s` that starts at its first non-trimmable character. */
  function TrimStart(s: string): (r: string)
    ensures |r| <= |s| && r == s[|s| - |r|..]
    ensures r == [] || !IsTrimmable(r[0])
    ensures forall i :: 0 <= i < |s| - |r| ==> IsTrimmable(s[i])
  {
    if |s| > 0 && IsTrimmable(s[0]) then TrimStart(s[1..]) else s
  }

  /** The prefix of `s` that ends at its last non-trimmable character. */
  function TrimEnd(s: string): (r: string)
    ensures |r| <= |s| && r == s[..|r|]
    ensures r == [] || !IsTrimmable(r[|r| - 1])
    ensures forall i :: |r| <= i < |s| ==> IsTrimmable(s[i])
  {
    if |s| > 0 && IsTrimmable(s[|s| - 1]) then TrimEnd(s[..|s| - 1]) else s
  }

  /** Java's `s.trim()`: what is left once the leading and the trailing runs
      of trimmable characters are removed. */
  function Trim(s: string): (r: string)
    ensures |r| <= |s|
    ensures r == [] || (!IsTrimmable(r[0]) && !IsTrimmable(r[|r| - 1]))
  {
    TrimEnd(TrimStart(s))
  }

  /** The number of trimmable characters `trim()` removes from the front. */
  function LeadingCount(s: string): (k: nat)
    ensures k <= |s|
  {
    |s| - |TrimStart(s)|
  }

  /** `trim()` keeps a contiguous slice of its input and drops only
      trimmable characters on either side of it. */
  lemma TrimIsSlice(s: string)
    ensures LeadingCount(s) + |Trim(s)| <= |s|
    ensures Trim(s) == s[LeadingCount(s)..LeadingCount(s) + |Trim(s)|]
    ensures forall i :: 0 <= i < LeadingCount(s) ==> IsTrimmable(s[i])
    ensures forall i :: LeadingCount(s) + |Trim(s)| <= i < |s| ==> IsTrimmable(s[i])
  {
    var t := TrimStart(s);
    var r := TrimEnd(t);
    var k := |s| - |t|;
    assert t == s[k..];
    assert r == t[..|r|];
    forall i | k + |r| <= i < |s|
      ensures IsTrimmable(s[i])
    {
      assert s[i] == t[i - k];
    }
  }

  /** Java's `s.trim().isEmpty()`: true exactly when every character of `s`
      is trimmable. */
  function IsBlank(s: string): (b: bool)
    ensures b <==> forall i :: 0 <= i < |s| ==> IsTrimmable(s[i])
  {
    |Trim(s)| == 0
  }

  predicate IsDigit(c: char) {
    '0' <= c <= '9'
  }

  function DigitChar(d: nat): (c: char)
    requires d < 10
    ensures IsDigit(c)
  {
    ('0' as int + d) as char
  }

  function DigitValue(c: char): (d: nat)
    requires IsDigit(c)
    ensures d < 10 && DigitChar(d) == c
  {
    c as int - '0' as int
  }

  predicate AllDigits(s: string) {
    forall i :: 0 <= i < |s| ==> IsDigit(s[i])
  }

  /** `String.valueOf(n)` for a non-negative int: its decimal digits, most
      significant first, without leading zeros. */
  function DecimalString(n: nat): (s: string)
    ensures |s| >= 1 && AllDigits(s)
    ensures s[0] == '0' <==> n == 0
  {
    if n < 10 then [DigitChar(n)] else DecimalString(n / 10) + [DigitChar(n % 10)]
  }

  /** The value of a string of decimal digits (most significant first). */
  function ParseDecimal(s: string): nat
    requires AllDigits(s)
  {
    if s == [] then 0 else 10 * ParseDecimal(s[..|s| - 1]) + DigitValue(s[|s| - 1])
  }

  function Pow10(k: nat): (p: nat)
    ensures p >= 1
  {
    if k == 0 then 1 else 10 * Pow10(k - 1)
  }

  /** Parsing undoes `String.valueOf`. */
  lemma {:induction false} ParseDecimalString(n: nat)
    ensures ParseDecimal(DecimalString(n)) == n
  {
    var s := DecimalString(n);
    if n >= 10 {
      assert s[..|s| - 1] == DecimalString(n / 10);
      ParseDecimalString(n / 10);
    }
  }

  /** A number with k + 1 digits prints as k + 1 characters. */
  lemma {:induction false} DecimalLength(n: nat, k: nat)
    requires Pow10(k) <= n < Pow10(k + 1)
    ensures |DecimalString(n)| == k + 1
  {
    if k > 0 {
      DecimalLength(n / 10, k - 1);
    }
  }

  /** A digit string of length k + 1 without a leading zero denotes a number
      with k + 1 digits, and `String.valueOf` gives that string back. */
  lemma {:induction false} DecimalStringParse(s: string, k: nat)
    requires AllDigits(s) && |s| == k + 1 && s[0] != '0'
    ensures Pow10(k) <= ParseDecimal(s) < Pow10(k + 1)
    ensures DecimalString(ParseDecimal(s)) == s
  {
    var n := ParseDecimal(s);
    if k == 0 {
      assert s[..|s| - 1] == [];
    } else {
      var prefix := s[..|s| - 1];
      DecimalStringParse(prefix, k - 1);
      var d := DigitValue(s[|s| - 1]);
      assert n == 10 * ParseDecimal(prefix) + d;
      assert n / 10 == ParseDecimal(prefix) && n % 10 == d;
      assert DecimalString(n) == DecimalString(n / 10) + [DigitChar(n % 10)];
      assert s == prefix + [s[|s| - 1]];
    }
  }

  /** The shape of a room code: six decimal digits, the first not zero. */
  predicate IsRoomCode(s: string) {
    |s| == 6 && AllDigits(s) && s[0] != '0'
  }

  /** Every number in [100000, 999999] prints as a room code that parses back to it. */
  lemma RoomCodeOfNumber(n: nat)
    requires 100000 <= n <= 999999
    ensures IsRoomCode(DecimalString(n))
    ensures ParseDecimal(DecimalString(n)) == n
  {
    assert Pow10(5) == 100000 && Pow10(6) == 1000000;
    DecimalLength(n, 5);
    ParseDecimalString(n);
  }

  /** ... and every room code is the print of exactly one such number. */
  lemma RoomCodeIsNumber(s: string)
    requires IsRoomCode(s)
    ensures 100000 <= ParseDecimal(s) <= 999999
    ensures DecimalString(ParseDecimal(s)) == s
  {
    assert Pow10(5) == 100000 && Pow10(6) == 1000000;
    DecimalStringParse(s, 5);
  }
}
