/** The few `java.lang.String` operations the services rely on, over `seq<char>`.
  * Case mapping is ASCII only (see README, "Left out"). */
module JavaText {

  import opened Wrappers

  // ---------------------------------------------------------------- trim

  /** `String.trim` strips every leading and trailing char whose code is at most U+0020. */
  predicate IsTrimmable(c: char) { c <= ' ' }

  function TrimStart(s: string): (r: string)
    ensures |r| <= |s|
    ensures forall k :: 0 <= k < |s| - |r| ==> IsTrimmable(s[k])
    ensures r == [] || !IsTrimmable(r[0])
  {
    if s != [] && IsTrimmable(s[0]) then TrimStart(s[1..]) else s
  }

  /** `TrimStart` keeps a suffix of its input. */
  lemma {:induction false} TrimStartIsSuffix(s: string)
    ensures TrimStart(s) == s[|s| - |TrimStart(s)|..]
  {
    if s != [] && IsTrimmable(s[0]) {
      TrimStartIsSuffix(s[1..]);
    }
  }

  function TrimEnd(s: string): (r: string)
    ensures |r| <= |s| && r == s[..|r|]
    ensures forall k :: |r| <= k < |s| ==> IsTrimmable(s[k])
    ensures r == [] || !IsTrimmable(r[|r| - 1])
  {
    if s != [] && IsTrimmable(s[|s| - 1]) then TrimEnd(s[..|s| - 1]) else s
  }

  /** A string that `trim` leaves as it is. */
  predicate IsTrimmed(s: string)
  {
    s == [] || (!IsTrimmable(s[0]) && !IsTrimmable(s[|s| - 1]))
  }

  /** How many chars `trim` removes at the front. */
  function LeadCut(s: string): nat
  {
    |s| - |TrimStart(s)|
  }

  /** `String.trim()`: the longest infix that neither starts nor ends with a char <= U+0020. */
  function Trim(s: string): (r: string)
    ensures IsTrimmed(r)
    ensures LeadCut(s) + |r| <= |s| && r == s[LeadCut(s)..LeadCut(s) + |r|]
  {
    TrimStartIsSuffix(s);
    TrimEnd(TrimStart(s))
  }

  lemma TrimStartOfTrimmed(s: string)
    requires s == [] || !IsTrimmable(s[0])
    ensures TrimStart(s) == s
  {
  }

  lemma TrimEndOfTrimmed(s: string)
    requires s == [] || !IsTrimmable(s[|s| - 1])
    ensures TrimEnd(s) == s
  {
  }

  /** `trim` changes nothing on a string that is already trimmed; in particular it is idempotent. */
  lemma TrimOfTrimmed(s: string)
    requires IsTrimmed(s)
    ensures Trim(s) == s
  {
    TrimStartOfTrimmed(s);
    TrimEndOfTrimmed(s);
  }

  /** `trim()` yields the empty string exactly when every char is <= U+0020. */
  lemma TrimEmptyIff(s: string)
    ensures Trim(s) == [] <==> forall k :: 0 <= k < |s| ==> IsTrimmable(s[k])
  {
    if forall k :: 0 <= k < |s| ==> IsTrimmable(s[k]) {
      AllTrimmableTrimStart(s);
    } else {
      var k :| 0 <= k < |s| && !IsTrimmable(s[k]);
      NonTrimmableSurvives(s, k);
    }
  }

  lemma NonTrimmableSurvives(s: string, k: nat)
    requires k < |s| && !IsTrimmable(s[k])
    ensures Trim(s) != []
  {
    var a := TrimStart(s);
    assert |a| > 0;
  }

  lemma {:induction false} AllTrimmableTrimStart(s: string)
    requires forall k :: 0 <= k < |s| ==> IsTrimmable(s[k])
    ensures TrimStart(s) == []
  {
    if s != [] {
      AllTrimmableTrimStart(s[1..]);
    }
  }

  // ---------------------------------------------------------------- length

  /** The UTF-16 code units of one char: a char beyond U+FFFF is stored as a surrogate pair. */
  function Utf16Units(c: char): nat
  {
    if c as int >= 0x1_0000 then 2 else 1
  }

  /** `String.length()`, which counts UTF-16 code units rather than chars. */
  function Utf16Length(s: string): (n: nat)
    ensures |s| <= n <= 2 * |s|
  {
    if s == [] then 0 else Utf16Units(s[0]) + Utf16Length(s[1..])
  }

  /** The length of a concatenation is the sum of the lengths. */
  lemma {:induction false} Utf16LengthAppend(a: string, b: string)
    ensures Utf16Length(a + b) == Utf16Length(a) + Utf16Length(b)
  {
    if a != [] {
      assert (a + b)[0] == a[0] && (a + b)[1..] == a[1..] + b;
      Utf16LengthAppend(a[1..], b);
    } else {
      assert a + b == b;
    }
  }

  /** `length()` equals the number of chars exactly when every char lies in the Basic Multilingual
    * Plane. */
  lemma {:induction false} Utf16LengthIsSizeIff(s: string)
    ensures Utf16Length(s) == |s| <==> forall k :: 0 <= k < |s| ==> s[k] as int < 0x1_0000
  {
    if s != [] {
      Utf16LengthIsSizeIff(s[1..]);
      assert forall k :: 1 <= k < |s| ==> s[k] == s[1..][k - 1];
    }
  }

  /** A string of chars beyond U+FFFF only has twice as many UTF-16 units as chars. */
  lemma {:induction false} Utf16LengthOfAstral(s: string)
    requires forall k :: 0 <= k < |s| ==> s[k] as int >= 0x1_0000
    ensures Utf16Length(s) == 2 * |s|
  {
    if s != [] {
      assert forall k :: 0 <= k < |s| - 1 ==> s[1..][k] == s[k + 1];
      Utf16LengthOfAstral(s[1..]);
    }
  }

  // ---------------------------------------------------------------- whitespace classes

  /** The regular-expression class `\s`: space, tab, line feed, vertical tab, form feed, carriage return. */
  predicate IsRegexSpace(c: char)
  {
    c == ' ' || c == '\t' || c == '\n' || c == '\U{000B}' || c == '\U{000C}' || c == '\r'
  }

  /** `Character.isWhitespace`, which `String.isBlank` uses. */
  predicate IsJavaWhitespace(c: char)
  {
    c == ' ' || ('\t' <= c <= '\r') || ('\U{001C}' <= c <= '\U{001F}')
    || c == '\U{1680}' || ('\U{2000}' <= c <= '\U{2006}') || ('\U{2008}' <= c <= '\U{200A}')
    || c == '\U{2028}' || c == '\U{2029}' || c == '\U{205F}' || c == '\U{3000}'
  }

  /** `String.isBlank()`: empty or only `Character.isWhitespace` chars. On ASCII text a blank value
    * is also empty after `trim()`; beyond ASCII the two differ (U+3000 is blank but not trimmed). */
  function IsBlank(s: string): (b: bool)
    ensures s == [] ==> b
    ensures b && (forall k :: 0 <= k < |s| ==> s[k] as int < 0x80) ==> Trim(s) == []
  {
    TrimEmptyIff(s);
    forall k :: 0 <= k < |s| ==> IsJavaWhitespace(s[k])
  }

  /** The ideographic space U+3000 is blank to `isBlank()` but survives `trim()`. */
  lemma BlankButNotTrimmed()
    ensures IsBlank("\U{3000}") && Trim("\U{3000}") != []
  {
    NonTrimmableSurvives("\U{3000}", 0);
  }

  /** A Java reference that is null or `isBlank()`. */
  predicate IsNullOrBlank(s: Option<string>)
  {
    s.None? || IsBlank(s.value)
  }

  // ---------------------------------------------------------------- case (ASCII)

  function LowerChar(c: char): char
  {
    if 'A' <= c <= 'Z' then (c as int + 32) as char else c
  }

  function UpperChar(c: char): char
  {
    if 'a' <= c <= 'z' then (c as int - 32) as char else c
  }

  function ToLower(s: string): string
  {
    seq(|s|, i requires 0 <= i < |s| => LowerChar(s[i]))
  }

  function ToUpper(s: string): string
  {
    seq(|s|, i requires 0 <= i < |s| => UpperChar(s[i]))
  }

  /** `String.equalsIgnoreCase` on ASCII text. */
  predicate EqualsIgnoreCase(a: string, b: string)
  {
    ToLower(a) == ToLower(b)
  }

  // ---------------------------------------------------------------- search

  predicate StartsWith(s: string, prefix: string)
  {
    |prefix| <= |s| && s[..|prefix|] == prefix
  }

  /** `String.contains`. */
  predicate Contains(s: string, t: string)
  {
    StartsWith(s, t) || (s != [] && Contains(s[1..], t))
  }

  /** `String.indexOf(t)`, the first position at which `t` starts, if any. */
  function IndexOf(s: string, t: string): (r: Option<nat>)
    ensures r.Some? ==> r.value + |t| <= |s| && s[r.value..r.value + |t|] == t
    ensures r.Some? <==> Contains(s, t)
    ensures r.Some? ==> forall j :: 0 <= j < r.value ==> !OccursAt(s, t, j)
  {
    if StartsWith(s, t) then Some(0)
    else if s == [] then None
    else
      match IndexOf(s[1..], t)
      case None => None
      case Some(k) =>
        assert !OccursAt(s, t, 0);
        assert forall j :: 1 <= j <= k ==> (OccursAt(s, t, j) <==> OccursAt(s[1..], t, j - 1)) by {
          forall j | 1 <= j <= k ensures OccursAt(s, t, j) <==> OccursAt(s[1..], t, j - 1) {
            if j + |t| <= |s| {
              assert s[j..j + |t|] == s[1..][j - 1..j - 1 + |t|];
            }
          }
        }
        Some(k + 1)
  }

  /** `t` occurs in `s` starting at position `j`. */
  predicate OccursAt(s: string, t: string, j: nat)
  {
    j + |t| <= |s| && s[j..j + |t|] == t
  }

  // ---------------------------------------------------------------- numbers

  function DigitChar(d: nat): char
    requires d < 10
  {
    ('0' as int + d) as char
  }

  predicate IsDigit(c: char) { '0' <= c <= '9' }

  function DigitValue(c: char): nat
    requires IsDigit(c)
  {
    c as int - '0' as int
  }

  /** `Long.toString` of a non-negative number. */
  function NatToString(n: nat): (r: string)
    ensures r != [] && forall k :: 0 <= k < |r| ==> IsDigit(r[k])
  {
    if n < 10 then [DigitChar(n)] else NatToString(n / 10) + [DigitChar(n % 10)]
  }

  /** The value of a string of decimal digits. */
  function DecimalValue(s: string): nat
    requires forall k :: 0 <= k < |s| ==> IsDigit(s[k])
  {
    if s == [] then 0 else 10 * DecimalValue(s[..|s| - 1]) + DigitValue(s[|s| - 1])
  }

  /** Reading back the decimal rendering gives the number: distinct ids give distinct texts. */
  lemma {:induction false} DecimalOfNatToString(n: nat)
    ensures DecimalValue(NatToString(n)) == n
  {
    if n >= 10 {
      DecimalOfNatToString(n / 10);
      var s := NatToString(n);
      assert s[..|s| - 1] == NatToString(n / 10);
    }
  }

  lemma NatToStringInjective(a: nat, b: nat)
    requires NatToString(a) == NatToString(b)
    ensures a == b
  {
    DecimalOfNatToString(a);
    DecimalOfNatToString(b);
  }

  /** `Long.toString`, and the `toString` of an integral JSON number. */
  function IntToString(n: int): (r: string)
    ensures r != []
    ensures n >= 0 <==> r[0] != '-'
  {
    if n < 0 then "-" + NatToString(-n) else NatToString(n)
  }

  const LongMin := -0x8000_0000_0000_0000
  const LongMax := 0x7FFF_FFFF_FFFF_FFFF

  predicate IsDigits(s: string) { forall k :: 0 <= k < |s| ==> IsDigit(s[k]) }

  /** The message of the `NumberFormatException` `Long.valueOf` throws. */
  function NotANumber(s: string): string
  {
    "For input string: \"" + s + "\""
  }

  /** `Long.valueOf` of a non-null string: an optional sign, then at least one digit, and a value
    * that fits in 64 bits. */
  function ParseLong(s: string): (r: Result<int>)
    ensures r.Ok? ==> LongMin <= r.value <= LongMax
    ensures r.Ok? ==> s != [] && (IsDigit(s[0]) || s[0] == '-' || s[0] == '+')
    ensures r.Err? ==> r.msg == NotANumber(s)
  {
    var digits := if s != [] && (s[0] == '-' || s[0] == '+') then s[1..] else s;
    if digits == [] || !IsDigits(digits) then Err(NotANumber(s))
    else
      var magnitude: int := DecimalValue(digits);
      var v := if s[0] == '-' then -magnitude else magnitude;
      if LongMin <= v <= LongMax then Ok(v) else Err(NotANumber(s))
  }

  /** Reading back the decimal rendering of a 64-bit number gives the number. */
  lemma LongTextRoundTrip(n: int)
    requires LongMin <= n <= LongMax
    ensures ParseLong(IntToString(n)) == Ok(n)
  {
    var m := if n < 0 then -n else n;
    DecimalOfNatToString(m);
    if n < 0 {
      assert IntToString(n)[1..] == NatToString(m);
    }
  }

  /** A text holding anything but a sign and digits is refused. */
  lemma NonDigitRefused(s: string, k: nat)
    requires 0 < k < |s| && !IsDigit(s[k])
    ensures ParseLong(s) == Err(NotANumber(s))
  {
    if s[0] == '-' || s[0] == '+' {
      assert !IsDigit(s[1..][k - 1]);
    }
  }

  // ---------------------------------------------------------------- concatenation

  /** What string concatenation appends for a `String` that may be null. */
  function OrNull(s: Option<string>): (r: string)
    ensures s.Some? ==> r == s.value
  {
    if s.Some? then s.value else "null"
  }
}
