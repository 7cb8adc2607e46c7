/**
 * The few pieces of JavaScript's built-in behaviour that the portal's logic
 * leans on: `String.prototype.trim`, `parseInt` without a radix, and the
 * `x || 0` fallback that turns `NaN` into 0.
 */
module JsSemantics {

  datatype Option<T> = None | Some(value: T)

  /** JavaScript's WhiteSpace and LineTerminator code points (what `trim` and `parseInt` skip). */
  predicate IsWhiteSpace(c: char)
  {
    c == '\t' || c == '\n' || c == '\U{000B}' || c == '\U{000C}' || c == '\r' || c == ' ' ||
    c == '\U{00A0}' || c == '\U{1680}' || ('\U{2000}' <= c <= '\U{200A}') ||
    c == '\U{2028}' || c == '\U{2029}' || c == '\U{202F}' || c == '\U{205F}' || c == '\U{3000}' ||
    c == '\U{FEFF}'
  }

  function TrimStart(s: string): (r: string)
    ensures |r| <= |s| && r == s[|s| - |r|..]
    ensures r != [] ==> !IsWhiteSpace(r[0])
    ensures forall i :: 0 <= i < |s| - |r| ==> IsWhiteSpace(s[i])
  {
    if s != [] && IsWhiteSpace(s[0]) then TrimStart(s[1..]) else s
  }

  function TrimEnd(s: string): (r: string)
    ensures |r| <= |s| && r == s[..|r|]
    ensures r != [] ==> !IsWhiteSpace(r[|r| - 1])
    ensures forall i :: |r| <= i < |s| ==> IsWhiteSpace(s[i])
  {
    if s != [] && IsWhiteSpace(s[|s| - 1]) then TrimEnd(s[..|s| - 1]) else s
  }

  /** `s.trim()` */
  function Trim(s: string): string
  {
    TrimEnd(TrimStart(s))
  }

  /** Trimming a string that starts with a non-blank character only cuts the tail. */
  lemma TrimKeepsHead(s: string)
    requires s != [] && !IsWhiteSpace(s[0])
    ensures Trim(s) == TrimEnd(s) && Trim(s) != [] && Trim(s)[0] == s[0]
  {
  }

  predicate IsAllWhiteSpace(s: string)
  {
    forall i :: 0 <= i < |s| ==> IsWhiteSpace(s[i])
  }

  /** `TrimEnd(p + s) == p` exactly when `s` is blank, for a prefix `p` that ends non-blank. */
  lemma {:induction false} TrimEndOfPaddedPrefix(p: string, s: string)
    requires p != [] && !IsWhiteSpace(p[|p| - 1])
    ensures TrimEnd(p + s) == p <==> IsAllWhiteSpace(s)
    decreases |s|
  {
    if s == [] {
      assert p + s == p;
    } else if IsWhiteSpace(s[|s| - 1]) {
      assert (p + s)[..|p + s| - 1] == p + s[..|s| - 1];
      TrimEndOfPaddedPrefix(p, s[..|s| - 1]);
      if IsAllWhiteSpace(s[..|s| - 1]) {
        assert forall i :: 0 <= i < |s| ==> IsWhiteSpace(s[i]) by {
          forall i | 0 <= i < |s| ensures IsWhiteSpace(s[i]) {
            if i < |s| - 1 { assert s[i] == s[..|s| - 1][i]; }
          }
        }
      } else {
        var i :| 0 <= i < |s| - 1 && !IsWhiteSpace(s[..|s| - 1][i]);
        assert s[i] == s[..|s| - 1][i];
      }
    } else {
      assert (p + s)[|p + s| - 1] == s[|s| - 1];
      assert TrimEnd(p + s) == p + s;
      assert |p + s| > |p|;
    }
  }

  // ---------------------------------------------------------------------------
  // parseInt(string) with no radix argument

  predicate IsDigitOf(c: char, radix: nat)
    requires radix == 10 || radix == 16
  {
    ('0' <= c <= '9') || (radix == 16 && (('a' <= c <= 'f') || ('A' <= c <= 'F')))
  }

  function DigitValue(c: char): (d: nat)
    ensures '0' <= c <= '9' ==> d == c as int - '0' as int
  {
    if '0' <= c <= '9' then c as int - '0' as int
    else if 'a' <= c <= 'f' then c as int - 'a' as int + 10
    else if 'A' <= c <= 'F' then c as int - 'A' as int + 10
    else 0
  }

  /** The longest prefix of `s` made of digits of the radix. */
  function DigitPrefix(s: string, radix: nat): (ds: string)
    requires radix == 10 || radix == 16
    ensures |ds| <= |s| && ds == s[..|ds|]
    ensures forall i :: 0 <= i < |ds| ==> IsDigitOf(ds[i], radix)
    ensures |ds| < |s| ==> !IsDigitOf(s[|ds|], radix)
  {
    if s != [] && IsDigitOf(s[0], radix) then [s[0]] + DigitPrefix(s[1..], radix) else []
  }

  /** The mathematical value of a digit string, most significant digit first. */
  function DigitsValue(ds: string, radix: nat): nat
  {
    if ds == [] then 0 else DigitsValue(ds[..|ds| - 1], radix) * radix + DigitValue(ds[|ds| - 1])
  }

  /** The value of the longest run of digits of the radix at the start of `s`; `None` when there is none. */
  function DigitRunValue(s: string, radix: nat): Option<nat>
    requires radix == 10 || radix == 16
  {
    var ds := DigitPrefix(s, radix);
    if ds == [] then None else Some(DigitsValue(ds, radix))
  }

  /** The unsigned part of `parseInt`: base 16 after a `0x`/`0X` prefix, base 10 otherwise. */
  function ParseUnsigned(u: string): Option<nat>
  {
    if |u| >= 2 && u[0] == '0' && (u[1] == 'x' || u[1] == 'X') then DigitRunValue(u[2..], 16)
    else DigitRunValue(u, 10)
  }

  /**
   * `parseInt(s)`: skip leading white space, read an optional sign, switch to
   * base 16 after a `0x`/`0X` prefix, then read the longest run of digits;
   * `None` stands for `NaN` (no digit at all).
   */
  function ParseInt(s: string): (r: Option<int>)
  {
    var t := TrimStart(s);
    if t != [] && (t[0] == '-' || t[0] == '+') then
      match ParseUnsigned(t[1..])
      case None => None
      case Some(m) => if t[0] == '-' then Some(-(m as int)) else Some(m as int)
    else
      match ParseUnsigned(t)
      case None => None
      case Some(m) => Some(m as int)
  }

  /** `parseInt(s) || 0`: NaN (and 0) fall back to 0. */
  function ParseIntOrZero(s: string): (n: int)
    ensures ParseInt(s).None? ==> n == 0
    ensures ParseInt(s).Some? ==> n == ParseInt(s).value
  {
    match ParseInt(s)
    case None => 0
    case Some(v) => v
  }

  /** `parseInt(cell) || 0` on a cell that may be `undefined` (`parseInt(undefined)` is NaN). */
  function CellIntOrZero(cell: Option<string>): (n: int)
    ensures cell.None? ==> n == 0
    ensures cell.Some? ==> n == ParseIntOrZero(cell.value)
  {
    match cell
    case None => 0
    case Some(s) => ParseIntOrZero(s)
  }

  // ---------------------------------------------------------------------------
  // Decimal rendering, the partner of ParseInt

  function DigitChar(d: nat): (c: char)
    requires d < 10
    ensures '0' <= c <= '9' && DigitValue(c) == d
  {
    ('0' as int + d) as char
  }

  /** The decimal digits of `n`, without leading zeros. */
  function Decimal(n: nat): (s: string)
    ensures s != [] && forall i :: 0 <= i < |s| ==> '0' <= s[i] <= '9'
    ensures |s| >= 2 ==> s[0] != '0'
  {
    if n < 10 then [DigitChar(n)] else Decimal(n / 10) + [DigitChar(n % 10)]
  }

  /** How a JavaScript integer prints: an optional minus sign and its decimal digits. */
  function IntString(i: int): string
  {
    if i < 0 then "-" + Decimal(-i) else Decimal(i)
  }

  lemma {:induction false} DecimalValue(n: nat)
    ensures DigitsValue(Decimal(n), 10) == n
  {
    if n >= 10 {
      var s := Decimal(n);
      assert s[..|s| - 1] == Decimal(n / 10);
      DecimalValue(n / 10);
    }
  }

  lemma {:induction false} DigitPrefixOfDigits(s: string)
    requires forall i :: 0 <= i < |s| ==> '0' <= s[i] <= '9'
    ensures DigitPrefix(s, 10) == s
    decreases |s|
  {
    if s != [] {
      DigitPrefixOfDigits(s[1..]);
    }
  }

  predicate IsCanonicalDecimal(d: string)
  {
    d != [] && (forall i :: 0 <= i < |d| ==> '0' <= d[i] <= '9') && (|d| >= 2 ==> d[0] != '0')
  }

  /** A run of decimal digits without leading zeros parses to its value. */
  lemma ParseIntOfDigits(d: string)
    requires IsCanonicalDecimal(d)
    ensures ParseInt(d) == Some(DigitsValue(d, 10))
  {
    assert !IsWhiteSpace(d[0]);
    assert TrimStart(d) == d;
    assert d[0] != '-' && d[0] != '+';
    DigitPrefixOfDigits(d);
  }

  /** The same run after a minus sign parses to the negated value. */
  lemma ParseIntOfNegatedDigits(d: string)
    requires IsCanonicalDecimal(d)
    ensures ParseInt("-" + d) == Some(-(DigitsValue(d, 10) as int))
  {
    var s := "-" + d;
    assert !IsWhiteSpace(s[0]);
    assert TrimStart(s) == s;
    assert s[1..] == d;
    DigitPrefixOfDigits(d);
  }

  /** Round trip: `parseInt(String(i)) === i` for every integer `i`. */
  lemma ParseIntRoundTrip(i: int)
    ensures ParseInt(IntString(i)) == Some(i)
  {
    var m: nat := if i < 0 then -i else i;
    DecimalValue(m);
    if i < 0 {
      ParseIntOfNegatedDigits(Decimal(m));
    } else {
      ParseIntOfDigits(Decimal(m));
    }
  }
}
