/**
 * String helpers standing for the parts of Go's `strings` and `strconv`
 * packages that the API-description engine relies on: byte search, prefix and
 * substring tests, `strconv.FormatInt` and
 * `strconv.ParseInt(s, 10, 64)` / `strconv.Atoi` on a 64-bit platform.
 */
module Text {
  const MinInt64: int := -0x8000_0000_0000_0000
  const MaxInt64: int := 0x7FFF_FFFF_FFFF_FFFF

  /** Go's `int64` (and `int` on a 64-bit platform). */
  type Int64 = x: int | -0x8000_0000_0000_0000 <= x <= 0x7FFF_FFFF_FFFF_FFFF

  /** `strings.LastIndex(s, string(c))`: the last position of `c`, or -1. */
  function LastIndexOf(s: string, c: char): (r: int)
    ensures -1 <= r < |s|
    ensures r == -1 <==> c !in s
    ensures 0 <= r ==> s[r] == c && c !in s[r + 1..]
  {
    if |s| == 0 then -1
    else if s[|s| - 1] == c then |s| - 1
    else
      var r := LastIndexOf(s[..|s| - 1], c);
      assert s[r + 1..] == s[..|s| - 1][r + 1..] + [s[|s| - 1]] by {
        if r == -1 { assert s == s[..|s| - 1] + [s[|s| - 1]]; }
      }
      r
  }

  /** `strings.Index(s, string(c))`: the first position of `c`, or -1. */
  function IndexOf(s: string, c: char): (r: int)
    ensures -1 <= r < |s|
    ensures r == -1 <==> c !in s
    ensures 0 <= r ==> s[r] == c && c !in s[..r]
  {
    if |s| == 0 then -1
    else if s[0] == c then 0
    else
      var r := IndexOf(s[1..], c);
      if r == -1 then -1
      else
        assert s[..r + 1] == [s[0]] + s[1..][..r];
        r + 1
  }

  /** The text after the last `c`; the whole text when there is none. */
  function AfterLast(s: string, c: char): (r: string)
    ensures c !in r
    ensures c in s ==> |r| < |s| && s[|s| - |r| - 1] == c && s[|s| - |r|..] == r
    ensures c !in s ==> r == s
  {
    s[LastIndexOf(s, c) + 1..]
  }

  /** `strings.HasPrefix`. */
  predicate HasPrefix(s: string, p: string)
  {
    |p| <= |s| && s[..|p|] == p
  }

  /** `sub` occurs in `s` starting at position `i`. */
  predicate OccursAt(s: string, sub: string, i: nat)
  {
    i + |sub| <= |s| && s[i..i + |sub|] == sub
  }

  /** `strings.Contains(s, sub)`. */
  predicate Contains(s: string, sub: string)
    decreases |s|
  {
    OccursAt(s, sub, 0) || (|s| > 0 && Contains(s[1..], sub))
  }

  /** `strings.ReplaceAll(s, " ", "")`. */
  function StripSpaces(s: string): (r: string)
    ensures ' ' !in r
    ensures forall c :: c in r ==> c in s
  {
    if |s| == 0 then ""
    else if s[0] == ' ' then StripSpaces(s[1..])
    else [s[0]] + StripSpaces(s[1..])
  }

  /** `strings.Join`. */
  function Join(parts: seq<string>, sep: string): string
  {
    if |parts| == 0 then ""
    else if |parts| == 1 then parts[0]
    else parts[0] + sep + Join(parts[1..], sep)
  }

  predicate IsDigit(c: char)
  {
    '0' <= c <= '9'
  }

  predicate AllDigits(s: string)
  {
    forall i :: 0 <= i < |s| ==> IsDigit(s[i])
  }

  function DigitChar(d: nat): (c: char)
    requires d < 10
    ensures IsDigit(c)
  {
    ('0' as int + d) as char
  }

  /** Decimal digits of a natural number, most significant first, no leading zero. */
  function FormatNat(n: nat): (r: string)
    ensures |r| > 0 && AllDigits(r)
    ensures |r| > 1 ==> r[0] != '0'
    decreases n
  {
    if n < 10 then [DigitChar(n)] else FormatNat(n / 10) + [DigitChar(n % 10)]
  }

  /** `strconv.FormatInt(n, 10)` / `strconv.Itoa(n)`. */
  function FormatInt(n: int): string
  {
    if n < 0 then "-" + FormatNat(-n) else FormatNat(n)
  }

  function DigitsValue(s: string): nat
    requires AllDigits(s)
  {
    if |s| == 0 then 0 else DigitsValue(s[..|s| - 1]) * 10 + (s[|s| - 1] as int - '0' as int)
  }

  /** What `strconv.ParseInt(s, 10, 64)` returns: a value, a syntax error, or a range error. */
  datatype Parsed = Parsed(n: Int64) | SyntaxError | RangeError(clamped: Int64)
  {
    /** The number Go hands back next to the error: 0 for a syntax error, the clamped bound for a range error. */
    function Value(): Int64
    {
      match this
      case Parsed(n) => n
      case SyntaxError => 0
      case RangeError(c) => c
    }
  }

  const MaxUint64: int := 0xFFFF_FFFF_FFFF_FFFF

  /** The outcome of `strconv.ParseUint`'s digit loop. */
  datatype Scan = Value(u: nat) | Junk | Overflow

  /**
   * `strconv.ParseUint(d, 10, 64)`'s loop from position `i` with `acc` read
   * so far: left to right, a non-digit is a syntax error and a value past
   * the `uint64` range a range error, whichever comes first.
   */
  function ScanFrom(d: string, i: nat, acc: nat): Scan
    requires i <= |d|
    decreases |d| - i
  {
    if i == |d| then Value(acc)
    else if !IsDigit(d[i]) then Junk
    else
      var n := acc * 10 + (d[i] as int - '0' as int);
      if n > MaxUint64 then Overflow else ScanFrom(d, i + 1, n)
  }

  /** The sign-free digits `strconv.ParseInt` hands to `ParseUint`. */
  function Unsigned(s: string): string
  {
    if 0 < |s| && (s[0] == '+' || s[0] == '-') then s[1..] else s
  }

  /** `strconv.ParseInt(s, 10, 64)`; `strconv.Atoi` behaves the same on a 64-bit platform. */
  function ParseInt(s: string): (r: Parsed)
    ensures r.SyntaxError? ==> |Unsigned(s)| == 0 || !AllDigits(Unsigned(s))
    ensures 0 < |Unsigned(s)| && AllDigits(Unsigned(s)) ==> r == Bounded(0 < |s| && s[0] == '-', DigitsValue(Unsigned(s)))
    ensures r.Parsed? && 0 < |s| && s[0] == '-' ==> r.n <= 0
    ensures r.Parsed? && !(0 < |s| && s[0] == '-') ==> r.n >= 0
  {
    var neg := 0 < |s| && s[0] == '-';
    var digits := Unsigned(s);
    if |digits| == 0 then SyntaxError
    else
      assert AllDigits(digits) ==> ScanFrom(digits, 0, 0) == if DigitsValue(digits) <= MaxUint64 then Value(DigitsValue(digits)) else Overflow by {
        if AllDigits(digits) {
          assert digits[..0] == [];
          ScanValue(digits, 0);
        }
      }
      match ScanFrom(digits, 0, 0)
      case Junk => SyntaxError
      case Overflow => RangeError(if neg then MinInt64 else MaxInt64)
      case Value(u) => Bounded(neg, u)
  }

  /** A magnitude with its sign: the number, or the range error clamped to the bound on its side. */
  function Bounded(neg: bool, u: nat): Parsed
  {
    var v: int := if neg then 0 - u else u;
    if v > MaxInt64 then RangeError(MaxInt64)
    else if v < MinInt64 then RangeError(MinInt64)
    else Parsed(v)
  }

  /** Reading a prefix never decreases the value. */
  lemma {:induction false} DigitsValuePrefix(d: string, i: nat)
    requires AllDigits(d) && i <= |d|
    ensures DigitsValue(d[..i]) <= DigitsValue(d)
    decreases |d|
  {
    if i < |d| {
      DigitsValuePrefix(d[..|d| - 1], i);
      assert d[..|d| - 1][..i] == d[..i];
    } else {
      assert d[..i] == d;
    }
  }

  /**
   * On a string of digits the scan is the value read right to left, or an
   * overflow exactly when that value does not fit in a `uint64`.
   */
  lemma {:induction false} ScanValue(d: string, i: nat)
    requires i <= |d| && AllDigits(d) && DigitsValue(d[..i]) <= MaxUint64
    ensures ScanFrom(d, i, DigitsValue(d[..i])) == if DigitsValue(d) <= MaxUint64 then Value(DigitsValue(d)) else Overflow
    decreases |d| - i
  {
    if i == |d| {
      assert d[..i] == d;
    } else {
      assert d[..i + 1][..i] == d[..i];
      var n := DigitsValue(d[..i + 1]);
      if n <= MaxUint64 {
        ScanValue(d, i + 1);
      } else {
        DigitsValuePrefix(d, i + 1);
      }
    }
  }

  /**
   * A string with a non-digit after its first `k` digits: a syntax error when
   * those digits fit in a `uint64`, otherwise the range error is reported first.
   */
  lemma {:induction false} ParseIntJunk(s: string, k: nat)
    requires k < |Unsigned(s)| && AllDigits(Unsigned(s)[..k]) && !IsDigit(Unsigned(s)[k])
    ensures DigitsValue(Unsigned(s)[..k]) <= MaxUint64 ==> ParseInt(s) == SyntaxError
    ensures DigitsValue(Unsigned(s)[..k]) > MaxUint64 ==> ParseInt(s) == RangeError(if 0 < |s| && s[0] == '-' then MinInt64 else MaxInt64)
  {
    var d := Unsigned(s);
    ScanJunk(d, 0, k);
  }

  lemma {:induction false} ScanJunk(d: string, i: nat, k: nat)
    requires i <= k < |d| && AllDigits(d[..k]) && !IsDigit(d[k])
    requires DigitsValue(d[..k][..i]) <= MaxUint64
    ensures DigitsValue(d[..k]) <= MaxUint64 ==> ScanFrom(d, i, DigitsValue(d[..k][..i])) == Junk
    ensures DigitsValue(d[..k]) > MaxUint64 ==> ScanFrom(d, i, DigitsValue(d[..k][..i])) == Overflow
    decreases k - i
  {
    var p := d[..k];
    if i == k {
      assert p[..i] == p;
    } else {
      assert p[..i + 1][..i] == p[..i];
      assert p[i] == d[i];
      if DigitsValue(p[..i + 1]) <= MaxUint64 {
        ScanJunk(d, i + 1, k);
      } else {
        DigitsValuePrefix(p, i + 1);
      }
    }
  }

  function Pow10(n: nat): nat
  {
    if n == 0 then 1 else 10 * Pow10(n - 1)
  }

  /** A string of digits without a leading zero is worth at least the place value of its first digit. */
  lemma {:induction false} LeadingDigitBound(d: string)
    requires 0 < |d| && AllDigits(d) && d[0] != '0'
    ensures DigitsValue(d) >= Pow10(|d| - 1)
  {
    if |d| > 1 {
      var p := d[..|d| - 1];
      LeadingDigitBound(p);
      assert p[0] == d[0];
    }
  }

  lemma Pow10Of20()
    ensures Pow10(20) == 100_000_000_000_000_000_000
  {
    assert Pow10(5) == 100_000;
    assert Pow10(10) == 10_000_000_000;
    assert Pow10(15) == 1_000_000_000_000_000;
  }

  /** Twenty-one nines and then a letter: the digits overflow before the letter, so Go reports the range error, not the syntax error. */
  lemma OverflowBeforeJunk()
    ensures ParseInt(seq(21, _ => '9') + "x") == RangeError(MaxInt64)
  {
    var s := seq(21, _ => '9') + "x";
    assert Unsigned(s) == s;
    assert s[..21] == seq(21, _ => '9');
    LeadingDigitBound(s[..21]);
    Pow10Of20();
    ParseIntJunk(s, 21);
  }



  lemma {:induction false} DigitsValueOfFormatNat(n: nat)
    ensures DigitsValue(FormatNat(n)) == n
    decreases n
  {
    if n >= 10 {
      var p := FormatNat(n / 10);
      var s := p + [DigitChar(n % 10)];
      assert s[..|s| - 1] == p;
      DigitsValueOfFormatNat(n / 10);
    }
  }

  /** Printing an `int64` in decimal and parsing it back gives the same number with no error. */
  lemma FormatParseRoundTrip(n: Int64)
    ensures ParseInt(FormatInt(n)) == Parsed(n)
  {
    var s := FormatInt(n);
    if n < 0 {
      var m: nat := 0 - n as int;
      assert s[0] == '-' && s[1..] == FormatNat(m);
      DigitsValueOfFormatNat(m);
    } else {
      assert IsDigit(s[0]);
      DigitsValueOfFormatNat(n as int);
    }
  }

  /** A printed number never contains a slash, so it is a whole `$ref` suffix. */
  lemma FormatIntHasNoSlash(n: int)
    ensures '/' !in FormatInt(n)
  {
    var s := FormatInt(n);
    forall i | 0 <= i < |s|
      ensures s[i] != '/'
    {
      if n < 0 && i > 0 { assert s[i] == FormatNat(-n)[i - 1]; }
    }
  }
}
