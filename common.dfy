/**
 * Shared vocabulary of the model: C integer widths, the <ctype.h> character
 * classes the lexer uses, decimal text as printed by printf("%ld") and read
 * back by strtol(..., 10), and the space-separated joins the stringifiers build.
 */
module Common {

  /** 2^64: the modulus of size_t / unsigned long arithmetic. */
  const TWO_64: int := 0x1_0000_0000_0000_0000
  /** 2^63: where a 64-bit two's-complement `long` turns negative. */
  const TWO_63: int := 0x8000_0000_0000_0000
  const LONG_MAX: int := 0x7fff_ffff_ffff_ffff
  const LONG_MIN: int := -0x8000_0000_0000_0000

  /** An unsigned 64-bit machine word (size_t, unsigned long). */
  type u64 = x: int | 0 <= x < TWO_64

  /** Unsigned addition as C performs it: modulo 2^64. */
  function AddU64(a: u64, b: u64): (r: u64)
    ensures a + b < TWO_64 ==> r == a + b
    ensures a + b >= TWO_64 ==> r == a + b - TWO_64
  {
    (a + b) % TWO_64
  }

  /** The `long` that has the same bits as the unsigned word `x`. */
  function Signed(x: u64): (r: int)
    ensures LONG_MIN <= r <= LONG_MAX
    ensures r % TWO_64 == x
  {
    if x < TWO_63 then x else x - TWO_64
  }

  /** The unsigned word a `long` is converted to by a cast. */
  function Unsigned(x: int): (r: u64)
    requires LONG_MIN <= x <= LONG_MAX
    ensures Signed(r) == x
  {
    if x < 0 then x + TWO_64 else x
  }

  /** Generic success-or-error result. */
  datatype Result<+T, +E> = Ok(value: T) | Err(error: E)

  datatype Option<+T> = None | Some(value: T)

  // ---------------------------------------------------------------------
  // <ctype.h> in the "C" locale

  predicate IsSpace(c: char)
  {
    c == ' ' || c == '\t' || c == '\n' || c == '\U{000B}' || c == '\U{000C}' || c == '\r'
  }

  predicate IsDigit(c: char)
  {
    '0' <= c <= '9'
  }

  predicate AllDigits(s: string)
  {
    forall i :: 0 <= i < |s| ==> IsDigit(s[i])
  }

  // ---------------------------------------------------------------------
  // Decimal text

  function DigitChar(d: nat): (c: char)
    requires d < 10
    ensures IsDigit(c)
  {
    (('0' as int) + d) as char
  }

  function DigitValue(c: char): (d: nat)
    requires IsDigit(c)
    ensures d < 10
    ensures DigitChar(d) == c
  {
    (c as int) - ('0' as int)
  }

  /** The canonical decimal text of `n` (no sign, no leading zeros). */
  function Decimal(n: nat): (s: string)
    ensures 1 <= |s| && AllDigits(s)
    ensures |s| > 1 ==> s[0] != '0'
    decreases n
  {
    if n < 10 then [DigitChar(n)] else Decimal(n / 10) + [DigitChar(n % 10)]
  }

  /** The value of a run of decimal digits; the empty run is 0. */
  function DigitsValue(s: string): nat
    requires AllDigits(s)
  {
    if s == [] then 0 else DigitsValue(s[..|s| - 1]) * 10 + DigitValue(s[|s| - 1])
  }

  /** Reading back canonical decimal text yields the number printed. */
  lemma {:induction false} DecimalRoundTrip(n: nat)
    ensures DigitsValue(Decimal(n)) == n
    decreases n
  {
    if n >= 10 {
      var s := Decimal(n);
      assert s[..|s| - 1] == Decimal(n / 10);
      DecimalRoundTrip(n / 10);
    }
  }

  /** A number below 10^k prints in at most k digits. */
  lemma {:induction false} DecimalLength(n: nat, k: nat, p: nat)
    requires k >= 1 && p == Pow10(k) && n < p
    ensures |Decimal(n)| <= k
    decreases k
  {
    if n >= 10 {
      assert Pow10(1) == 10;
      DecimalLength(n / 10, k - 1, Pow10(k - 1));
    }
  }

  function Pow10(k: nat): (p: nat)
    ensures p >= 1
  {
    if k == 0 then 1 else 10 * Pow10(k - 1)
  }

  /** Text of a `long` as printf("%ld") writes it. */
  function LongText(x: int): (s: string)
    ensures |s| >= 1
    ensures ' ' !in s
  {
    if x < 0 then "-" + Decimal(-x) else Decimal(x)
  }

  /** printf("%ld") never needs more than 20 characters for a 64-bit long. */
  lemma LongTextFits(x: int)
    requires LONG_MIN <= x <= LONG_MAX
    ensures |LongText(x)| <= 20
  {
    assert Pow10(4) == 10_000;
    assert Pow10(8) == 100_000_000;
    assert Pow10(12) == 1_000_000_000_000;
    assert Pow10(16) == 10_000_000_000_000_000;
    assert Pow10(19) == 10_000_000_000_000_000_000;
    if x < 0 {
      DecimalLength(-x, 19, Pow10(19));
    } else {
      DecimalLength(x, 19, Pow10(19));
    }
  }

  // ---------------------------------------------------------------------
  // strtol(s, NULL, 10)

  /** Index of the first character at or after `i` that is not white space. */
  function SkipSpaces(s: string, i: nat): (j: nat)
    requires i <= |s|
    ensures i <= j <= |s|
    ensures j < |s| ==> !IsSpace(s[j])
    decreases |s| - i
  {
    if i < |s| && IsSpace(s[i]) then SkipSpaces(s, i + 1) else i
  }

  /** Index of the first character at or after `i` that is not a digit. */
  function DigitEnd(s: string, i: nat): (j: nat)
    requires i <= |s|
    ensures i <= j <= |s|
    ensures j < |s| ==> !IsDigit(s[j])
    decreases |s| - i
  {
    if i < |s| && IsDigit(s[i]) then DigitEnd(s, i + 1) else i
  }

  lemma {:induction false} SkippedSpaces(s: string, i: nat)
    requires i <= |s|
    ensures forall k :: i <= k < SkipSpaces(s, i) ==> IsSpace(s[k])
    decreases |s| - i
  {
    if i < |s| && IsSpace(s[i]) {
      SkippedSpaces(s, i + 1);
    }
  }

  lemma {:induction false} DigitRun(s: string, i: nat)
    requires i <= |s|
    ensures AllDigits(s[i..DigitEnd(s, i)])
    decreases |s| - i
  {
    if i < |s| && IsDigit(s[i]) {
      DigitRun(s, i + 1);
      assert s[i..DigitEnd(s, i)] == [s[i]] + s[i + 1..DigitEnd(s, i + 1)];
    }
  }

  /**
   * strtol in base 10: leading white space, an optional sign, the longest
   * digit run; no digits gives 0; out-of-range values saturate at
   * LONG_MAX / LONG_MIN.
   */
  function Strtol(s: string): (r: int)
    ensures LONG_MIN <= r <= LONG_MAX
  {
    var i := SkipSpaces(s, 0);
    var neg := i < |s| && s[i] == '-';
    var j := if i < |s| && (s[i] == '-' || s[i] == '+') then i + 1 else i;
    DigitRun(s, j);
    var v: int := DigitsValue(s[j..DigitEnd(s, j)]);
    if neg then (if v > TWO_63 then LONG_MIN else -v)
    else (if v > LONG_MAX then LONG_MAX else v)
  }

  lemma AllDigitsEnd(s: string, i: nat)
    requires i <= |s| && AllDigits(s[i..])
    ensures DigitEnd(s, i) == |s|
    decreases |s| - i
  {
    if i < |s| {
      assert IsDigit(s[i..][0]);
      assert s[i + 1..] == s[i..][1..];
      AllDigitsEnd(s, i + 1);
    }
  }

  /** strtol reads canonical decimal text back, saturating above LONG_MAX. */
  lemma StrtolDecimal(n: nat)
    ensures Strtol(Decimal(n)) == if n <= LONG_MAX then n else LONG_MAX
  {
    var s := Decimal(n);
    assert !IsSpace(s[0]) && s[0] != '-' && s[0] != '+';
    AllDigitsEnd(s, 0);
    assert s[0..|s|] == s;
    DecimalRoundTrip(n);
  }

  /** strtol inverts printf("%ld") on every `long`. */
  lemma StrtolLongText(x: int)
    requires LONG_MIN <= x <= LONG_MAX
    ensures Strtol(LongText(x)) == x
  {
    if x < 0 {
      StrtolNegated(-x);
    } else {
      StrtolDecimal(x);
    }
  }

  /** strtol reads a minus sign and canonical digits back as the negated number. */
  lemma StrtolNegated(n: nat)
    requires 1 <= n <= TWO_63
    ensures Strtol("-" + Decimal(n)) == -(n as int)
  {
    var d := Decimal(n);
    var s := "-" + d;
    assert s[1..] == d;
    AllDigitsEnd(s, 1);
    assert s[1..DigitEnd(s, 1)] == d;
    DecimalRoundTrip(n);
  }

  // ---------------------------------------------------------------------
  // Space-separated text

  /** `parts` separated by single spaces, with no trailing space. */
  function JoinSpaces(parts: seq<string>): string
    requires |parts| >= 1
  {
    if |parts| == 1 then parts[0] else parts[0] + " " + JoinSpaces(parts[1..])
  }

  lemma {:induction false} JoinSpacesSnoc(parts: seq<string>, p: string)
    requires |parts| >= 1
    ensures JoinSpaces(parts + [p]) == JoinSpaces(parts) + " " + p
    decreases |parts|
  {
    if |parts| == 1 {
      assert (parts + [p])[1..] == [p];
    } else {
      assert (parts + [p])[1..] == parts[1..] + [p];
      JoinSpacesSnoc(parts[1..], p);
    }
  }

  /** The index of the first space in `s`, or |s| if there is none. */
  function FirstSpace(s: string): (i: nat)
    ensures i <= |s|
    ensures i < |s| ==> s[i] == ' '
    ensures ' ' !in s[..i]
    ensures i == |s| <==> ' ' !in s
  {
    if s == [] then 0
    else if s[0] == ' ' then 0
    else
      assert s[1..][..FirstSpace(s[1..])] == s[1..1 + FirstSpace(s[1..])];
      assert s[..1 + FirstSpace(s[1..])] == [s[0]] + s[1..1 + FirstSpace(s[1..])];
      1 + FirstSpace(s[1..])
  }

  /** Split `s` at every single space. */
  function SplitSpaces(s: string): (r: seq<string>)
    ensures |r| >= 1
    decreases |s|
  {
    var i := FirstSpace(s);
    if i == |s| then [s] else [s[..i]] + SplitSpaces(s[i + 1..])
  }

  /** Splitting at spaces undoes joining with spaces when no part holds a space. */
  lemma {:induction false} SplitJoin(parts: seq<string>)
    requires |parts| >= 1
    requires forall k :: 0 <= k < |parts| ==> ' ' !in parts[k]
    ensures SplitSpaces(JoinSpaces(parts)) == parts
    decreases |parts|
  {
    var s := JoinSpaces(parts);
    if |parts| == 1 {
      assert FirstSpace(s) == |s|;
    } else {
      var p := parts[0];
      var rest := JoinSpaces(parts[1..]);
      assert s == p + " " + rest;
      assert s[..|p|] == p;
      assert s[|p|] == ' ';
      FirstSpaceAt(s, |p|);
      assert s[|p| + 1..] == rest;
      SplitJoin(parts[1..]);
    }
  }

  lemma FirstSpaceAt(s: string, i: nat)
    requires i < |s| && s[i] == ' ' && ' ' !in s[..i]
    ensures FirstSpace(s) == i
    decreases i
  {
    if i > 0 {
      assert s[..i][0] == s[0];
      assert s[1..][..i - 1] == s[1..i];
      assert s[..i] == [s[0]] + s[1..i];
      FirstSpaceAt(s[1..], i - 1);
    }
  }
}
