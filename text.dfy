/**
 * The string operations the service relies on: `trim`, `split(',').pop()`,
 * case-insensitive substring search and the decimal rendering of a number.
 */
module Text {

  /** ECMAScript WhiteSpace and LineTerminator code points: what `String.prototype.trim` strips. */
  predicate IsWhiteSpace(c: char)
  {
    c == ' ' || c == '\t' || c == '\n' || c == '\r' || c == '\U{000B}' || c == '\U{000C}'
    || c == '\U{00A0}' || c == '\U{FEFF}' || c == '\U{1680}' || ('\U{2000}' <= c <= '\U{200A}')
    || c == '\U{2028}' || c == '\U{2029}' || c == '\U{202F}' || c == '\U{205F}' || c == '\U{3000}'
  }

  /** Drops leading white space. */
  function TrimStart(s: string): (r: string)
    ensures |r| <= |s|
  {
    if s != [] && IsWhiteSpace(s[0]) then TrimStart(s[1..]) else s
  }

  /** `TrimStart` removes exactly the leading white space. */
  lemma {:induction false} TrimStartSpec(s: string)
    ensures var r := TrimStart(s);
      && r == s[|s| - |r|..]
      && (r == [] || !IsWhiteSpace(r[0]))
      && (forall i :: 0 <= i < |s| - |r| ==> IsWhiteSpace(s[i]))
  {
    if s != [] && IsWhiteSpace(s[0]) {
      TrimStartSpec(s[1..]);
    }
  }

  /** Drops trailing white space. */
  function TrimEnd(s: string): (r: string)
    ensures |r| <= |s|
  {
    if s != [] && IsWhiteSpace(s[|s| - 1]) then TrimEnd(s[..|s| - 1]) else s
  }

  /** `TrimEnd` removes exactly the trailing white space. */
  lemma {:induction false} TrimEndSpec(s: string)
    ensures var r := TrimEnd(s);
      && r == s[..|r|]
      && (r == [] || !IsWhiteSpace(r[|r| - 1]))
      && (forall i :: |r| <= i < |s| ==> IsWhiteSpace(s[i]))
  {
    if s != [] && IsWhiteSpace(s[|s| - 1]) {
      TrimEndSpec(s[..|s| - 1]);
    }
  }

  /** `String.prototype.trim`. */
  function Trim(s: string): (r: string)
    ensures |r| <= |s|
  {
    TrimStart(TrimEnd(s))
  }

  /**
   * `Trim` yields the longest middle part of `s` that neither starts nor ends
   * with white space, everything cut off being white space.
   */
  lemma TrimSpec(s: string)
    ensures exists i :: TrimmedAt(s, Trim(s), i)
    ensures var r := Trim(s); r == [] || (!IsWhiteSpace(r[0]) && !IsWhiteSpace(r[|r| - 1]))
  {
    var e := TrimEnd(s);
    var r := TrimStart(e);
    TrimEndSpec(s);
    TrimStartSpec(e);
    var i := |e| - |r|;
    assert r == s[i..i + |r|];
    assert r != [] ==> r[|r| - 1] == e[|e| - 1];
    forall j | 0 <= j < i
      ensures IsWhiteSpace(s[j])
    {
      assert s[j] == e[j];
    }
    assert Trim(s) == r;
    assert TrimmedAt(s, Trim(s), i);
  }

  /** `r` is `s[i..i + |r|]` and everything around it in `s` is white space. */
  /** Trimming only removes characters, so a character absent before is absent after. */
  lemma TrimKeepsOut(s: string, c: char)
    requires c !in s
    ensures c !in Trim(s)
  {
    TrimSpec(s);
    var i :| TrimmedAt(s, Trim(s), i);
    forall j | 0 <= j < |Trim(s)|
      ensures Trim(s)[j] != c
    {
      assert Trim(s)[j] == s[i + j];
    }
  }

  ghost predicate TrimmedAt(s: string, r: string, i: int)
  {
    0 <= i <= |s| - |r| && r == s[i..i + |r|]
    && (forall j :: 0 <= j < i ==> IsWhiteSpace(s[j]))
    && (forall j :: i + |r| <= j < |s| ==> IsWhiteSpace(s[j]))
  }

  /**
   * `s.split(',').pop()`: the text after the last comma, or all of `s` when
   * it holds none (the array `split` returns is never empty).
   */
  function LastSegment(s: string): (r: string)
    ensures |r| <= |s|
  {
    if s == [] || s[|s| - 1] == ',' then []
    else LastSegment(s[..|s| - 1]) + [s[|s| - 1]]
  }

  /** `LastSegment` is the longest comma-free suffix. */
  lemma {:induction false} LastSegmentSpec(s: string)
    ensures var r := LastSegment(s);
      && r == s[|s| - |r|..]
      && ',' !in r
      && (|r| < |s| ==> s[|s| - |r| - 1] == ',')
  {
    if s != [] && s[|s| - 1] != ',' {
      var shorter := s[..|s| - 1];
      LastSegmentSpec(shorter);
      var r := LastSegment(shorter);
      assert r == shorter[|shorter| - |r|..];
      assert r + [s[|s| - 1]] == s[|s| - |r| - 1..];
    }
  }

  /** ASCII upper-case letters mapped to lower case; every other character kept. */
  function ToLowerAscii(s: string): (r: string)
    ensures |r| == |s|
  {
    seq(|s|, i requires 0 <= i < |s| => if 'A' <= s[i] <= 'Z' then (s[i] as int + 32) as char else s[i])
  }

  /** `needle` occurs in `hay` starting at position `i`. */
  predicate OccursAt(hay: string, needle: string, i: int)
  {
    0 <= i && i + |needle| <= |hay| && hay[i..i + |needle|] == needle
  }

  /** `needle` occurs somewhere in `hay`. */
  predicate ContainsSubstring(hay: string, needle: string)
  {
    exists i | 0 <= i <= |hay| :: OccursAt(hay, needle, i)
  }

  /** The case-insensitive `%needle%` pattern of SQL `ILIKE`, without wildcards inside `needle`. */
  predicate ContainsIgnoringCase(hay: string, needle: string)
  {
    ContainsSubstring(ToLowerAscii(hay), ToLowerAscii(needle))
  }

  /**
   * The `ilike '%needle%'` test: an empty needle matches everything, an exact
   * occurrence matches, and the needle's letter case does not matter.
   */
  lemma ContainsIgnoringCaseSpec(hay: string, needle: string)
    ensures ContainsIgnoringCase(hay, "")
    ensures ContainsSubstring(hay, needle) ==> ContainsIgnoringCase(hay, needle)
    ensures ContainsIgnoringCase(hay, ToLowerAscii(needle)) <==> ContainsIgnoringCase(hay, needle)
  {
    var lower := ToLowerAscii(hay);
    assert OccursAt(lower, ToLowerAscii(""), 0);
    if ContainsSubstring(hay, needle) {
      var i :| 0 <= i <= |hay| && OccursAt(hay, needle, i);
      assert lower[i..i + |needle|] == ToLowerAscii(needle) by {
        forall j | 0 <= j < |needle|
          ensures lower[i..i + |needle|][j] == ToLowerAscii(needle)[j]
        {
          assert needle[j] == hay[i + j];
        }
      }
      assert OccursAt(lower, ToLowerAscii(needle), i);
    }
    assert ToLowerAscii(ToLowerAscii(needle)) == ToLowerAscii(needle);
  }

  predicate IsDigit(c: char)
  {
    '0' <= c <= '9'
  }

  /** The number a string of decimal digits denotes. */
  function DecimalValue(s: string): nat
    requires forall i :: 0 <= i < |s| ==> IsDigit(s[i])
  {
    if s == [] then 0
    else
      assert IsDigit(s[|s| - 1]);
      DecimalValue(s[..|s| - 1]) * 10 + (s[|s| - 1] as int - '0' as int)
  }

  /** How JavaScript renders a non-negative integer in a template string. */
  function DecimalString(n: nat): (r: string)
    ensures |r| >= 1
  {
    var d := ('0' as int + n % 10) as char;
    if n < 10 then [d] else DecimalString(n / 10) + [d]
  }

  /** The rendering is all digits, has no leading zero, and reads back as `n`. */
  lemma {:induction false} DecimalStringSpec(n: nat)
    ensures var r := DecimalString(n);
      && (forall i :: 0 <= i < |r| ==> IsDigit(r[i]))
      && (|r| > 1 ==> r[0] != '0')
      && DecimalValue(r) == n
  {
    if n >= 10 {
      DecimalStringSpec(n / 10);
      var prefix := DecimalString(n / 10);
      var d := ('0' as int + n % 10) as char;
      assert (prefix + [d])[..|prefix|] == prefix;
    }
  }
}
