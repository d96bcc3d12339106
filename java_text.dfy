/**
 The few pieces of java.lang behaviour that the OpenSearch source configuration
 relies on: nullable strings, `String.trim()` and the `%d` conversion of
 `String.format`, each with an independent characterisation (a parser for the
 formatter, the character-level meaning of trimming); and `lastIndexOf(char)`,
 used by the connection-string parser.
 */
module JavaText {

  datatype Option<T> = None | Some(value: T)

  /** A Java `String` reference, which may be null. */
  datatype JavaString = Null | Str(value: string)

  /** A character that `String.trim()` removes: every char at or below U+0020. */
  predicate IsTrimmable(c: char) {
    c <= ' '
  }

  // ---------------------------------------------------------------------------
  // String.trim()
  // ---------------------------------------------------------------------------

  /** The index of the first char at or after `st` that trim keeps, or |s|. */
  function SkipLeading(s: string, st: nat): (r: nat)
    requires st <= |s|
    ensures st <= r <= |s|
    ensures forall k :: st <= k < r ==> IsTrimmable(s[k])
    ensures r < |s| ==> !IsTrimmable(s[r])
    decreases |s| - st
  {
    if st < |s| && IsTrimmable(s[st]) then SkipLeading(s, st + 1) else st
  }

  /** The end (exclusive) of the kept part, scanning back from `len` but not below `st`. */
  function SkipTrailing(s: string, st: nat, len: nat): (r: nat)
    requires st <= len <= |s|
    ensures st <= r <= len
    ensures forall k :: r <= k < len ==> IsTrimmable(s[k])
    ensures st < r ==> !IsTrimmable(s[r - 1])
    decreases len
  {
    if st < len && IsTrimmable(s[len - 1]) then SkipTrailing(s, st, len - 1) else len
  }

  /** `s.trim()`: drop the leading and the trailing chars at or below U+0020. */
  function Trim(s: string): (r: string)
    ensures |r| <= |s|
    ensures r == [] <==> forall k :: 0 <= k < |s| ==> IsTrimmable(s[k])
    ensures r != [] ==> !IsTrimmable(r[0]) && !IsTrimmable(r[|r| - 1])
  {
    var st := SkipLeading(s, 0);
    var en := SkipTrailing(s, st, |s|);
    s[st..en]
  }

  /** Trim removes exactly the blank padding around a core that starts and ends with a kept char. */
  lemma {:induction false} TrimOfPadded(lead: string, core: string, trail: string)
    requires forall k :: 0 <= k < |lead| ==> IsTrimmable(lead[k])
    requires forall k :: 0 <= k < |trail| ==> IsTrimmable(trail[k])
    requires core != [] ==> !IsTrimmable(core[0]) && !IsTrimmable(core[|core| - 1])
    ensures Trim(lead + core + trail) == core
  {
    var s := lead + core + trail;
    if core == [] {
      forall k | 0 <= k < |s| ensures IsTrimmable(s[k]) {
        if k < |lead| { assert s[k] == lead[k]; } else { assert s[k] == trail[k - |lead|]; }
      }
    } else {
      var st := SkipLeading(s, 0);
      assert s[|lead|] == core[0];
      assert st == |lead|;
      var en := SkipTrailing(s, st, |s|);
      var last := |lead| + |core| - 1;
      assert s[last] == core[|core| - 1];
      assert en > last;
      assert en == |lead| + |core|;
      assert s[st..en] == core;
    }
  }

  /** Trimming twice is trimming once. */
  lemma TrimIdempotent(s: string)
    ensures Trim(Trim(s)) == Trim(s)
  {
  }

  // ---------------------------------------------------------------------------
  // String.lastIndexOf(char)
  // ---------------------------------------------------------------------------

  /** `s.lastIndexOf(ch)`: the last position of `ch` in `s`, or -1. */
  function LastIndexOf(s: string, ch: char): (r: int)
    ensures -1 <= r < |s|
    ensures 0 <= r ==> s[r] == ch
    ensures forall k :: r < k < |s| ==> s[k] != ch
  {
    if |s| == 0 then -1
    else if s[|s| - 1] == ch then |s| - 1
    else LastIndexOf(s[..|s| - 1], ch)
  }

  // ---------------------------------------------------------------------------
  // The %d conversion and its inverse
  // ---------------------------------------------------------------------------

  predicate IsDigit(c: char) {
    '0' <= c <= '9'
  }

  predicate AllDigits(s: string) {
    forall k :: 0 <= k < |s| ==> IsDigit(s[k])
  }

  function DigitChar(d: nat): (c: char)
    requires d < 10
    ensures IsDigit(c) && c as int - '0' as int == d
  {
    (d + '0' as int) as char
  }

  /** The decimal digits of `n`, most significant first, without leading zeros. */
  function NatToDecimal(n: nat): (r: string)
    ensures r != [] && AllDigits(r)
    ensures r[0] == '0' ==> n == 0 && r == "0"
    decreases n
  {
    if n < 10 then [DigitChar(n)] else NatToDecimal(n / 10) + [DigitChar(n % 10)]
  }

  /** The number a string of decimal digits denotes. */
  function DecimalValue(s: string): nat
    requires AllDigits(s)
  {
    if s == [] then 0 else DecimalValue(s[..|s| - 1]) * 10 + (s[|s| - 1] as int - '0' as int)
  }

  lemma {:induction false} DecimalRoundTrip(n: nat)
    ensures DecimalValue(NatToDecimal(n)) == n
    decreases n
  {
    if n >= 10 {
      var p := NatToDecimal(n / 10);
      assert (p + [DigitChar(n % 10)])[..|p|] == p;
      DecimalRoundTrip(n / 10);
    }
  }

  /** Java's `%d` for an int: a minus sign for negative values, then the digits of the magnitude. */
  function FormatDecimal(i: int): (r: string)
    ensures r != [] && IsDigit(r[|r| - 1])
    ensures forall k :: 0 < k < |r| ==> IsDigit(r[k])
    ensures IsDigit(r[0]) || r[0] == '-'
    ensures r[0] == '-' <==> i < 0
    ensures r[0] == '-' ==> r[1] != '0'
    ensures r[0] == '0' ==> r == "0"
  {
    if i < 0 then "-" + NatToDecimal(-i) else NatToDecimal(i)
  }

  /** A digit string in canonical form: "0", or no leading zero. */
  predicate Canonical(s: string) {
    s != [] && AllDigits(s) && (s[0] == '0' ==> s == "0")
  }

  /**
   Reads back an optionally signed decimal integer written without leading
   zeros and without "-0"; None for anything else.
   */
  function ParseDecimal(s: string): Option<int> {
    if |s| > 1 && s[0] == '-' && Canonical(s[1..]) && s[1] != '0' then Some(-(DecimalValue(s[1..]) as int))
    else if Canonical(s) then Some(DecimalValue(s))
    else None
  }

  /** The `%d` text of an int reads back as that int. */
  lemma FormatDecimalRoundTrip(i: int)
    ensures ParseDecimal(FormatDecimal(i)) == Some(i)
  {
    if i < 0 {
      assert FormatDecimal(i)[1..] == NatToDecimal(-i);
      DecimalRoundTrip(-i);
    } else {
      DecimalRoundTrip(i);
    }
  }

  /** A canonical digit string is the one `NatToDecimal` prints for its value. */
  lemma {:induction false} CanonicalUnique(s: string)
    requires Canonical(s)
    ensures NatToDecimal(DecimalValue(s)) == s
    decreases |s|
  {
    if |s| > 1 {
      var p := s[..|s| - 1];
      assert p[0] == s[0];
      CanonicalUnique(p);
      var v := DecimalValue(s);
      assert v / 10 == DecimalValue(p) && v % 10 == s[|s| - 1] as int - '0' as int;
      assert DecimalValue(p) != 0;
      assert s == p + [s[|s| - 1]];
    }
  }

  /** The only text that reads back as an int is its `%d` text. */
  lemma ParseDecimalOnlyFormatted(s: string, i: int)
    requires ParseDecimal(s) == Some(i)
    ensures s == FormatDecimal(i)
  {
    if |s| > 1 && s[0] == '-' && Canonical(s[1..]) && s[1] != '0' {
      CanonicalUnique(s[1..]);
      assert s == "-" + s[1..];
    } else {
      CanonicalUnique(s);
    }
  }
}
