/** `SanitizeUtil.sanitize`: remove markup tags, fold every run of regex whitespace into
  * one space, then trim. */
module SanitizeUtil {

  import opened Wrappers
  import opened JavaText

  // ---------------------------------------------------------------- properties of text

  /** No '<' is followed, anywhere later, by a '>'. */
  predicate NoTagSpan(s: string)
  {
    forall i, j :: 0 <= i < j < |s| && s[i] == '<' ==> s[j] != '>'
  }

  /** Never two `\s` chars in a row. */
  predicate NoDoubleSpace(s: string)
  {
    forall i :: 0 < i < |s| && IsRegexSpace(s[i - 1]) ==> !IsRegexSpace(s[i])
  }

  /** The only `\s` char that occurs is the plain space. */
  predicate OnlyPlainSpaces(s: string)
  {
    forall i :: 0 <= i < |s| && IsRegexSpace(s[i]) ==> s[i] == ' '
  }

  // ---------------------------------------------------------------- replaceAll("<[^>]*>", "")

  function IndexOfChar(s: string, c: char): (k: nat)
    requires c in s
    ensures k < |s| && s[k] == c && c !in s[..k]
  {
    if s[0] == c then 0 else 1 + IndexOfChar(s[1..], c)
  }

  /** The regex scans left to right; at a '<' that has a '>' somewhere after it, the match runs to
    * the first such '>' and is deleted. A '<' with no '>' after it cannot start a match and stays. */
  function StripTags(s: string): (r: string)
    ensures |r| <= |s|
    ensures forall c :: c in r ==> c in s
    ensures NoTagSpan(r)
    decreases |s|
  {
    if s == [] then []
    else if s[0] == '<' && '>' in s[1..] then
      StripTags(s[1 + IndexOfChar(s[1..], '>') + 1..])
    else
      var rest := StripTags(s[1..]);
      assert forall j :: 0 < j < |[s[0]] + rest| ==> ([s[0]] + rest)[j] == rest[j - 1];
      [s[0]] + rest
  }

  // ---------------------------------------------------------------- replaceAll("\\s+", " ")

  /** Drops the leading run of `\s` chars. */
  function DropSpaces(s: string): (r: string)
    ensures |r| <= |s| && r == s[|s| - |r|..]
    ensures r == [] || !IsRegexSpace(r[0])
  {
    if s != [] && IsRegexSpace(s[0]) then DropSpaces(s[1..]) else s
  }

  /** Every maximal run of `\s` chars becomes a single space. */
  function CollapseSpaces(s: string): (r: string)
    ensures |r| <= |s|
    ensures r == [] <==> s == []
    ensures r != [] ==> (IsRegexSpace(r[0]) <==> IsRegexSpace(s[0]))
    ensures forall c :: c in r ==> c in s || c == ' '
    ensures NoDoubleSpace(r)
    ensures OnlyPlainSpaces(r)
    decreases |s|
  {
    if s == [] then []
    else if IsRegexSpace(s[0]) then
      var rest := CollapseSpaces(DropSpaces(s));
      assert forall j :: 0 < j < |[' '] + rest| ==> ([' '] + rest)[j] == rest[j - 1];
      [' '] + rest
    else
      var rest := CollapseSpaces(s[1..]);
      assert forall j :: 0 < j < |[s[0]] + rest| ==> ([s[0]] + rest)[j] == rest[j - 1];
      [s[0]] + rest
  }

  // ---------------------------------------------------------------- sanitize

  /** `sanitize` on a non-null string. */
  function Sanitize(s: string): (r: string)
    ensures |r| <= |s|
  {
    Trim(CollapseSpaces(StripTags(s)))
  }

  /** What `sanitize` leaves: no tag span, no surrounding blanks, and only lone plain spaces. */
  lemma SanitizeIsClean(s: string)
    ensures var r := Sanitize(s);
      NoTagSpan(r) && IsTrimmed(r) && NoDoubleSpace(r) && OnlyPlainSpaces(r)
  {
    CollapseKeepsNoTagSpan(StripTags(s));
    TrimKeepsShape(CollapseSpaces(StripTags(s)));
  }

  /** `sanitize(null)` is null; otherwise the string is sanitized. */
  function SanitizeOpt(s: Option<string>): (r: Option<string>)
    ensures r.None? <==> s.None?
    ensures r.Some? ==> r.value == Sanitize(s.value)
  {
    match s
    case None => None
    case Some(v) => Some(Sanitize(v))
  }

  // ---------------------------------------------------------------- lemmas

  /** The three shape properties survive taking an infix (and so survive `trim`). */
  lemma InfixKeeps(s: string, i: nat, j: nat)
    requires i <= j <= |s|
    ensures NoTagSpan(s) ==> NoTagSpan(s[i..j])
    ensures NoDoubleSpace(s) ==> NoDoubleSpace(s[i..j])
    ensures OnlyPlainSpaces(s) ==> OnlyPlainSpaces(s[i..j])
  {
    var t := s[i..j];
    if NoTagSpan(s) {
      forall a, b | 0 <= a < b < |t| && t[a] == '<'
        ensures t[b] != '>'
      {
        assert t[a] == s[i + a] && t[b] == s[i + b];
      }
    }
    if NoDoubleSpace(s) {
      forall a | 0 < a < |t| && IsRegexSpace(t[a - 1])
        ensures !IsRegexSpace(t[a])
      {
        assert t[a - 1] == s[i + a - 1] && t[a] == s[i + a];
      }
    }
    if OnlyPlainSpaces(s) {
      forall a | 0 <= a < |t| && IsRegexSpace(t[a])
        ensures t[a] == ' '
      {
        assert t[a] == s[i + a];
      }
    }
  }

  /** `trim` keeps the three shape properties. */
  lemma TrimKeepsShape(s: string)
    requires NoTagSpan(s) && NoDoubleSpace(s) && OnlyPlainSpaces(s)
    ensures NoTagSpan(Trim(s)) && NoDoubleSpace(Trim(s)) && OnlyPlainSpaces(Trim(s))
  {
    ShapeOfInfix(s, Trim(s), LeadCut(s));
  }

  lemma ShapeOfInfix(s: string, t: string, a: nat)
    requires a + |t| <= |s| && t == s[a..a + |t|]
    requires NoTagSpan(s) && NoDoubleSpace(s) && OnlyPlainSpaces(s)
    ensures NoTagSpan(t) && NoDoubleSpace(t) && OnlyPlainSpaces(t)
  {
    InfixKeeps(s, a, a + |t|);
  }

  lemma {:induction false} CollapseKeepsNoTagSpan(s: string)
    requires NoTagSpan(s)
    ensures NoTagSpan(CollapseSpaces(s))
    decreases |s|
  {
    if s == [] {
    } else if IsRegexSpace(s[0]) {
      var d := DropSpaces(s);
      InfixKeeps(s, |s| - |d|, |s|);
      CollapseKeepsNoTagSpan(d);
      var rest := CollapseSpaces(d);
      var r := [' '] + rest;
      assert forall k :: 0 < k < |r| ==> r[k] == rest[k - 1];
    } else {
      InfixKeeps(s, 1, |s|);
      CollapseKeepsNoTagSpan(s[1..]);
      var rest := CollapseSpaces(s[1..]);
      var r := [s[0]] + rest;
      assert forall k :: 0 < k < |r| ==> r[k] == rest[k - 1];
      if s[0] == '<' {
        assert forall j :: 0 < j < |s| ==> s[j] != '>';
        assert '>' !in s[1..];
        assert '>' !in rest;
      }
    }
  }

  /** Text without a tag span passes through the tag filter unchanged. */
  lemma {:induction false} StripTagsOfTagFree(s: string)
    requires NoTagSpan(s)
    ensures StripTags(s) == s
    decreases |s|
  {
    if s != [] {
      var t := s[1..];
      TagFreeTail(s);
      StripTagsOfTagFree(t);
      assert StripTags(s) == [s[0]] + StripTags(t);
      assert [s[0]] + t == s;
    }
  }

  /** Dropping the first char of tag-free text leaves tag-free text, and a leading '<' has no '>' after it. */
  lemma TagFreeTail(s: string)
    requires s != [] && NoTagSpan(s)
    ensures NoTagSpan(s[1..])
    ensures s[0] == '<' ==> '>' !in s[1..]
  {
    InfixKeeps(s, 1, |s|);
    if s[0] == '<' {
      forall j | 0 <= j < |s| - 1
        ensures s[1..][j] != '>'
      {
        assert s[1..][j] == s[j + 1];
      }
    }
  }

  /** Text whose spaces are lone plain spaces passes through the whitespace folding unchanged. */
  lemma {:induction false} CollapseOfCollapsed(s: string)
    requires NoDoubleSpace(s) && OnlyPlainSpaces(s)
    ensures CollapseSpaces(s) == s
    decreases |s|
  {
    if s != [] {
      var t := s[1..];
      SpacedTail(s);
      CollapseOfCollapsed(t);
      if IsRegexSpace(s[0]) {
        LoneSpaceDrop(s);
        assert CollapseSpaces(s) == [' '] + CollapseSpaces(t);
      } else {
        assert CollapseSpaces(s) == [s[0]] + CollapseSpaces(t);
      }
      assert [s[0]] + t == s;
    }
  }

  lemma SpacedTail(s: string)
    requires s != [] && NoDoubleSpace(s) && OnlyPlainSpaces(s)
    ensures NoDoubleSpace(s[1..]) && OnlyPlainSpaces(s[1..])
  {
    InfixKeeps(s, 1, |s|);
  }

  lemma LoneSpaceDrop(s: string)
    requires s != [] && IsRegexSpace(s[0]) && NoDoubleSpace(s) && OnlyPlainSpaces(s)
    ensures s[0] == ' ' && DropSpaces(s) == s[1..]
  {
    if |s| > 1 {
      assert !IsRegexSpace(s[1]);
    }
  }

  /** Text with no tag span, no surrounding blanks and only lone plain spaces is left as it is. */
  lemma SanitizeOfClean(s: string)
    requires NoTagSpan(s) && IsTrimmed(s) && NoDoubleSpace(s) && OnlyPlainSpaces(s)
    ensures Sanitize(s) == s
  {
    StripTagsOfTagFree(s);
    CollapseOfCollapsed(s);
    TrimOfTrimmed(s);
  }

  /** Sanitizing twice is the same as sanitizing once. */
  lemma SanitizeIdempotent(s: string)
    ensures Sanitize(Sanitize(s)) == Sanitize(s)
  {
    SanitizeIsClean(s);
    SanitizeOfClean(Sanitize(s));
  }
}
