/**
 * The pieces of java.lang.String behaviour the model relies on: null
 * references, `trim()`, `isEmpty()`, decimal rendering of a `long`, and the
 * byte length of `getBytes()` (taken as UTF-8).
 */
module JavaStrings {
  import opened Wrappers

  /** A Java String reference; None is null. */
  type JString = Option<string>

  /** How string concatenation renders a possibly-null reference. */
  function Show(s: JString): string
  {
    match s
    case None => "null"
    case Some(t) => t
  }

  /** The characters `String.trim()` strips: every code point up to U+0020. */
  predicate IsTrimmable(c: char)
  {
    c <= ' '
  }

  /** Drops leading trimmable characters. */
  function TrimStart(s: string): (r: string)
    ensures |r| <= |s| && r == s[|s| - |r|..]
    ensures r != [] ==> !IsTrimmable(r[0])
    ensures forall i | 0 <= i < |s| - |r| :: IsTrimmable(s[i])
  {
    if s != [] && IsTrimmable(s[0]) then TrimStart(s[1..]) else s
  }

  /** Drops trailing trimmable characters. */
  function TrimEnd(s: string): (r: string)
    ensures |r| <= |s| && r == s[..|r|]
    ensures r != [] ==> !IsTrimmable(r[|r| - 1])
    ensures forall i | |r| <= i < |s| :: IsTrimmable(s[i])
  {
    if s != [] && IsTrimmable(s[|s| - 1]) then TrimEnd(s[..|s| - 1]) else s
  }

  /** `String.trim()`. */
  function Trim(s: string): (r: string)
    ensures |r| <= |s|
    ensures r != [] ==> !IsTrimmable(r[0]) && !IsTrimmable(r[|r| - 1])
    // the result is the middle of `s`; what was cut on either side is all trimmable
    ensures var a := |s| - |TrimStart(s)|;
      && a + |r| <= |s| && (forall i | 0 <= i < |r| :: r[i] == s[a + i])
      && IsBlank(s[..a]) && IsBlank(s[a + |r|..])
  {
    TrimEnd(TrimStart(s))
  }

  /** `s.trim().isEmpty()`: every character is one that `trim()` strips (see BlankIffTrimEmpty). */
  predicate IsBlank(s: string)
  {
    forall i | 0 <= i < |s| :: IsTrimmable(s[i])
  }

  /** `s == null || s.trim().isEmpty()`, the guard every entry point applies to a project key. */
  predicate IsNullOrBlank(s: JString)
  {
    s.None? || IsBlank(s.value)
  }

  /** `trim()` leaves nothing exactly when every character is trimmable. */
  lemma {:induction false} BlankIffTrimEmpty(s: string)
    ensures IsBlank(s) <==> Trim(s) == []
  {
  }

  /** Trimming twice is trimming once, and what trimming keeps is never blank. */
  lemma {:induction false} TrimIdempotent(s: string)
    ensures Trim(Trim(s)) == Trim(s)
    ensures Trim(s) != [] ==> !IsBlank(Trim(s))
  {
  }

  /** The decimal digit for `d`. */
  function Digit(d: nat): (c: char)
    requires d < 10
    ensures '0' <= c <= '9'
  {
    ('0' as int + d) as char
  }

  /** `Long.toString(n)` for a non-negative `n`: most significant digit first, no leading zeros. */
  function DecimalString(n: nat): (r: string)
    ensures |r| >= 1
    ensures forall i | 0 <= i < |r| :: '0' <= r[i] <= '9'
    ensures |r| == 1 <==> n < 10
  {
    if n < 10 then [Digit(n)] else DecimalString(n / 10) + [Digit(n % 10)]
  }

  /** Distinct numbers have distinct decimal renderings. */
  lemma {:induction false} DecimalStringInjective(m: nat, n: nat)
    requires DecimalString(m) == DecimalString(n)
    ensures m == n
  {
    var s := DecimalString(m);
    if m >= 10 {
      assert n >= 10;
      assert Digit(m % 10) == s[|s| - 1] == Digit(n % 10);
      assert DecimalString(m / 10) == s[..|s| - 1] == DecimalString(n / 10);
      DecimalStringInjective(m / 10, n / 10);
    } else {
      assert Digit(m) == s[0] == Digit(n);
    }
  }

  /** Every character is in the 7-bit range. */
  predicate IsAscii(s: string)
  {
    forall i | 0 <= i < |s| :: s[i] as int < 0x80
  }

  lemma AsciiConcat(a: string, b: string)
    requires IsAscii(a) && IsAscii(b)
    ensures IsAscii(a + b)
  {
  }

  /** Bytes UTF-8 spends on one Unicode scalar value. */
  function Utf8Width(c: char): (w: nat)
    ensures 1 <= w <= 4
    ensures w == 1 <==> c as int < 0x80
  {
    if c as int < 0x80 then 1
    else if c as int < 0x800 then 2
    else if c as int < 0x10000 then 3
    else 4
  }

  /** Length in bytes of the UTF-8 encoding of `s` (what `getBytes().length` gives). */
  function Utf8Length(s: string): (n: nat)
    ensures |s| <= n <= 4 * |s|
  {
    if s == [] then 0 else Utf8Length(s[..|s| - 1]) + Utf8Width(s[|s| - 1])
  }

  /** The byte length equals the character count exactly when the text is ASCII. */
  lemma {:induction false} Utf8LengthIsCharCountIffAscii(s: string)
    ensures Utf8Length(s) == |s| <==> IsAscii(s)
  {
    if s != [] {
      var p := s[..|s| - 1];
      Utf8LengthIsCharCountIffAscii(p);
      if IsAscii(s) {
        assert IsAscii(p) by {
          forall i | 0 <= i < |p| ensures p[i] as int < 0x80 {
            assert p[i] == s[i];
          }
        }
      }
      if Utf8Length(s) == |s| {
        assert Utf8Length(p) == |p| && Utf8Width(s[|s| - 1]) == 1;
        forall i | 0 <= i < |s| ensures s[i] as int < 0x80 {
          if i < |p| {
            assert s[i] == p[i];
          }
        }
      }
    }
  }
}
