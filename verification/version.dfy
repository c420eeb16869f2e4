/**
 * Version helpers of the sync command: the `VersionInfo` record and the
 * extraction of a major version number from a dotted version string.
 *
 * Parsing follows Rust's `u32::from_str` (radix 10): an optional leading '+'
 * when something follows it, then decimal digits only, at most 4294967295.
 * The digits are read left to right; at each position an invalid digit is
 * reported before an overflow.
 */
module Version {
  import opened Wrappers
  import opened Text

  const U32_MAX: nat := 0xFFFF_FFFF

  /** Rust's `u32`. */
  type U32 = n: nat | n <= U32_MAX

  /** The kinds of `ParseIntError` that parsing a `u32` can report. */
  datatype IntErrorKind = Empty | InvalidDigit | PosOverflow

  predicate AllDigits(d: string) {
    forall i :: 0 <= i < |d| ==> IsAsciiDigit(d[i])
  }

  function DigitValue(c: char): (r: nat)
    requires IsAsciiDigit(c)
    ensures r <= 9
  {
    c as int - '0' as int
  }

  /** Value of a decimal numeral, most significant digit first. */
  function DecimalValue(d: string): nat
    requires AllDigits(d)
  {
    if d == [] then 0 else DecimalValue(d[..|d| - 1]) * 10 + DigitValue(d[|d| - 1])
  }

  /** A longer prefix of a numeral never has a smaller value. */
  lemma {:induction false} DecimalValuePrefixMonotone(d: string, i: nat, j: nat)
    requires AllDigits(d) && i <= j <= |d|
    ensures DecimalValue(d[..i]) <= DecimalValue(d[..j])
    decreases j
  {
    if i < j {
      DecimalValuePrefixMonotone(d, i, j - 1);
      assert d[..j][..j - 1] == d[..j - 1];
    }
  }

  /** Length of the longest all-digit prefix of `d`. */
  function DigitRun(d: string): (n: nat)
    ensures n <= |d| && AllDigits(d[..n])
    ensures n < |d| ==> !IsAsciiDigit(d[n])
  {
    if d == [] || !IsAsciiDigit(d[0]) then 0
    else
      var n := 1 + DigitRun(d[1..]);
      assert d[..n] == [d[0]] + d[1..][..n - 1];
      n
  }

  /** The text the digit loop reads: a leading '+' is dropped when something follows it. */
  function DigitsOf(s: string): string {
    if |s| >= 2 && s[0] == '+' then s[1..] else s
  }

  /**
   * Reference semantics of `u32::from_str`: empty text is `Empty`; otherwise
   * an overflow inside the leading run of digits is `PosOverflow`, a
   * character after that run is `InvalidDigit`, and a text that is all
   * digits gives its value.
   */
  function ParseU32Spec(s: string): (r: Result<U32, IntErrorKind>)
    ensures r == Err(Empty) <==> s == []
    ensures r.Ok? <==> s != [] && AllDigits(DigitsOf(s)) && DecimalValue(DigitsOf(s)) <= U32_MAX
    ensures r.Ok? ==> r.value == DecimalValue(DigitsOf(s))
  {
    if s == [] then Err(Empty)
    else
      var d := DigitsOf(s);
      var n := DigitRun(d);
      DigitRunCoversDigits(d);
      if DecimalValue(d[..n]) > U32_MAX then Err(PosOverflow)
      else if n < |d| then Err(InvalidDigit)
      else
        assert d[..n] == d;
        Ok(DecimalValue(d[..n]))
  }

  /**
   * `u32::from_str` as Rust's core library runs it: sign handling, then one
   * pass over the digits with a checked multiply and a checked add.
   */
  method ParseU32(s: string) returns (r: Result<U32, IntErrorKind>)
    ensures r == ParseU32Spec(s)
  {
    if |s| == 0 {
      return Err(Empty);
    }
    var digits := s;
    if s[0] == '+' || s[0] == '-' {
      if |s| == 1 {
        return Err(InvalidDigit);
      }
      if s[0] == '+' {
        digits := s[1..];
      }
    }
    assert digits == DigitsOf(s);
    var result: U32 := 0;
    var i := 0;
    while i < |digits|
      invariant 0 <= i <= |digits|
      invariant AllDigits(digits[..i])
      invariant result == DecimalValue(digits[..i])
    {
      var c := digits[i];
      var mul := result * 10;
      if !IsAsciiDigit(c) {
        assert DigitRun(digits) == i by {
          DigitRunStopsAt(digits, i);
        }
        return Err(InvalidDigit);
      }
      assert digits[..i + 1][..i] == digits[..i];
      assert AllDigits(digits[..i + 1]);
      if mul > U32_MAX {
        OverflowIsFinal(digits, i + 1);
        return Err(PosOverflow);
      }
      var sum := mul + DigitValue(c);
      if sum > U32_MAX {
        OverflowIsFinal(digits, i + 1);
        return Err(PosOverflow);
      }
      result := sum;
      i := i + 1;
    }
    assert digits[..i] == digits;
    assert DigitRun(digits) == |digits| by {
      DigitRunCoversDigits(digits);
    }
    return Ok(result);
  }

  /** When the first `i` characters are digits and the next is not, the digit run is `i` long. */
  lemma DigitRunStopsAt(d: string, i: nat)
    requires i < |d| && AllDigits(d[..i]) && !IsAsciiDigit(d[i])
    ensures DigitRun(d) == i
  {
  }

  /** A text made of digits only is one digit run. */
  lemma DigitRunCoversDigits(d: string)
    ensures AllDigits(d) ==> DigitRun(d) == |d| && d[..DigitRun(d)] == d
  {
  }

  /** Once a prefix of the digit run overflows, the whole run does. */
  lemma OverflowIsFinal(d: string, k: nat)
    requires k <= |d| && AllDigits(d[..k]) && DecimalValue(d[..k]) > U32_MAX
    ensures DigitRun(d) >= k
    ensures DecimalValue(d[..DigitRun(d)]) > U32_MAX
  {
    var n := DigitRun(d);
    assert forall i :: 0 <= i < k ==> d[..k][i] == d[i];
    assert n >= k;
    assert AllDigits(d[..n]);
    DecimalValuePrefixMonotone(d[..n], k, n);
    assert d[..n][..k] == d[..k];
    assert d[..n][..n] == d[..n];
  }

  /** Reference semantics of `extract_major_version`: the text before the first '.', parsed as a `u32`. */
  function MajorVersionOf(version: string): Result<U32, IntErrorKind> {
    ParseU32Spec(BeforeFirst(version, '.'))
  }

  /**
   * `extract_major_version`: split on '.', take piece 0 (the "0" fallback can
   * never be used, since splitting yields at least one piece) and parse it.
   */
  method ExtractMajorVersion(version: string) returns (r: Result<U32, IntErrorKind>)
    ensures r == MajorVersionOf(version)
    ensures r.Ok? <==>
      var head := BeforeFirst(version, '.');
      head != [] && AllDigits(DigitsOf(head)) && DecimalValue(DigitsOf(head)) <= U32_MAX
  {
    var parts := Split(version, '.');
    var first := Get(parts, 0).UnwrapOr("0");
    r := ParseU32(first);
  }

  /** Only the text before the first '.' matters: "1.2.3", "1.x" and "1" give the same answer. */
  lemma {:induction false} MajorVersionIgnoresTail(head: string, tail: string)
    requires '.' !in head
    ensures MajorVersionOf(head + "." + tail) == MajorVersionOf(head)
  {
    BeforeFirstOfJoined(head, tail);
    BeforeFirstWithoutSep(head);
  }

  lemma {:induction false} BeforeFirstOfJoined(head: string, tail: string)
    requires '.' !in head
    ensures BeforeFirst(head + "." + tail, '.') == head
    decreases |head|
  {
    if head != [] {
      BeforeFirstOfJoined(head[1..], tail);
      assert (head + "." + tail)[1..] == head[1..] + "." + tail;
    }
  }

  lemma {:induction false} BeforeFirstWithoutSep(head: string)
    requires '.' !in head
    ensures BeforeFirst(head, '.') == head
    decreases |head|
  {
    if head != [] {
      BeforeFirstWithoutSep(head[1..]);
    }
  }

  /**
   * The error cases: an empty first component (as in "" or ".5") is `Empty`;
   * a first component with a character that is not a digit (as in "v1.0")
   * is an error whatever follows.
   */
  lemma MajorVersionErrors(version: string)
    ensures BeforeFirst(version, '.') == [] <==> MajorVersionOf(version) == Err(Empty)
    ensures (exists i :: 1 <= i < |BeforeFirst(version, '.')| && !IsAsciiDigit(BeforeFirst(version, '.')[i]))
        ==> MajorVersionOf(version).Err?
  {
    var head := BeforeFirst(version, '.');
    if exists i :: 1 <= i < |head| && !IsAsciiDigit(head[i]) {
      var i :| 1 <= i < |head| && !IsAsciiDigit(head[i]);
      if head[0] == '+' {
        assert DigitsOf(head)[i - 1] == head[i];
      } else {
        assert DigitsOf(head)[i] == head[i];
      }
    }
  }

  /** Worked example: "1.2.3" and "1.x" both have major version 1. */
  lemma MajorVersionExamplesOk()
    ensures MajorVersionOf("1.2.3") == Ok(1)
    ensures MajorVersionOf("1.x") == Ok(1)
  {
    MajorVersionIgnoresTail("1", "2.3");
    MajorVersionIgnoresTail("1", "x");
    assert "1.2.3" == "1" + "." + "2.3";
    assert "1.x" == "1" + "." + "x";
    MajorVersionOfOne();
  }

  /** The one-character version "1" has major version 1. */
  lemma MajorVersionOfOne()
    ensures MajorVersionOf("1") == Ok(1)
  {
    BeforeFirstWithoutSep("1");
    assert DigitsOf("1") == "1";
    assert AllDigits("1");
    assert "1"[..0] == [];
    assert DecimalValue("1") == 1;
  }

  /** Worked example: ".5" has an empty first component and "v1.0" an invalid digit. */
  lemma MajorVersionExamplesErr()
    ensures MajorVersionOf(".5") == Err(Empty)
    ensures MajorVersionOf("v1.0") == Err(InvalidDigit)
  {
    MajorVersionIgnoresTail("v1", "0");
    assert "v1.0" == "v1" + "." + "0";
    BeforeFirstWithoutSep("v1");
    assert DigitsOf("v1") == "v1";
    assert DigitRun("v1") == 0;
  }

  /** The version record of the sync command. */
  datatype VersionInfo = VersionInfo(version: string, versionCode: string)

  /** `VersionInfo::new`: both strings are stored verbatim. */
  function NewVersionInfo(version: string, versionCode: string): (r: VersionInfo)
    ensures r.version == version && r.versionCode == versionCode
  {
    VersionInfo(version, versionCode)
  }
}
