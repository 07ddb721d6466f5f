/** The parts of JavaScript's string semantics the validators rely on:
    the whitespace set of `\s` and `String.prototype.trim`, the ASCII
    classes `\d` and `[a-zA-Z]`, and `.length`, which counts UTF-16 code
    units rather than characters. */
module Text {

  /** ECMAScript WhiteSpace and LineTerminator code points: tab, line feed,
      vertical tab, form feed, carriage return, space, no-break space, the
      other Unicode space separators (U+1680, U+2000..U+200A, U+202F, U+205F,
      U+3000), the byte order mark, and the line and paragraph separators.
      This is exactly the set the regular-expression class `\s` matches and
      `trim` removes. */
  predicate IsWhitespace(c: char)
  {
    var n := c as int;
    (0x09 <= n <= 0x0D) || n == 0x20 || n == 0xA0 || n == 0x1680
    || (0x2000 <= n <= 0x200A) || n == 0x2028 || n == 0x2029
    || n == 0x202F || n == 0x205F || n == 0x3000 || n == 0xFEFF
  }

  /** The class `\d`, which is ASCII only. */
  predicate IsAsciiDigit(c: char)
  {
    '0' <= c <= '9'
  }

  /** The class `[a-zA-Z]`. */
  predicate IsAsciiLetter(c: char)
  {
    ('a' <= c <= 'z') || ('A' <= c <= 'Z')
  }

  /** A string is blank when it holds whitespace only (the empty string included). */
  predicate IsBlank(s: string)
  {
    forall i :: 0 <= i < |s| ==> IsWhitespace(s[i])
  }

  /** A character outside the Basic Multilingual Plane takes two UTF-16 code units. */
  predicate IsBmp(c: char)
  {
    c as int < 0x1_0000
  }

  /** JavaScript's `s.length`: the number of UTF-16 code units of `s`. */
  function Utf16Length(s: string): (r: nat)
    ensures |s| <= r <= 2 * |s|
  {
    if s == [] then 0 else (if IsBmp(s[0]) then 1 else 2) + Utf16Length(s[1..])
  }

  /** `.length` counts characters exactly when none is astral. */
  lemma {:induction false} Utf16LengthIsLength(s: string)
    ensures Utf16Length(s) == |s| <==> forall i :: 0 <= i < |s| ==> IsBmp(s[i])
  {
    if s != [] {
      Utf16LengthIsLength(s[1..]);
      assert forall i :: 1 <= i < |s| ==> s[i] == s[1..][i - 1];
    }
  }

  /** `String.prototype.trimStart`: drops the leading whitespace. */
  function TrimStart(s: string): (r: string)
    ensures |r| <= |s| && r == s[|s| - |r|..]
    ensures r == [] || !IsWhitespace(r[0])
    ensures forall i :: 0 <= i < |s| - |r| ==> IsWhitespace(s[i])
  {
    if s != [] && IsWhitespace(s[0]) then TrimStart(s[1..]) else s
  }

  /** `String.prototype.trimEnd`: drops the trailing whitespace. */
  function TrimEnd(s: string): (r: string)
    ensures |r| <= |s| && r == s[..|r|]
    ensures r == [] || !IsWhitespace(r[|r| - 1])
    ensures forall i :: |r| <= i < |s| ==> IsWhitespace(s[i])
  {
    if s != [] && IsWhitespace(s[|s| - 1]) then TrimEnd(s[..|s| - 1]) else s
  }

  /** `r` is the part of `s` that starts at `k`, with only whitespace
      before and after it. */
  predicate WhitespaceAround(s: string, r: string, k: int)
  {
    && 0 <= k <= |s| - |r| && r == s[k..k + |r|]
    && (forall i :: 0 <= i < k ==> IsWhitespace(s[i]))
    && (forall i :: k + |r| <= i < |s| ==> IsWhitespace(s[i]))
  }

  /** `String.prototype.trim`: drops whitespace at both ends. */
  function Trim(s: string): string
  {
    TrimEnd(TrimStart(s))
  }

  /** `trim()` returns the slice of `s` with only whitespace before and
      after it, and that slice is empty or starts and ends with a
      non-whitespace character. */
  lemma TrimSlice(s: string)
    ensures exists k :: WhitespaceAround(s, Trim(s), k)
    ensures var r := Trim(s); r == [] || (!IsWhitespace(r[0]) && !IsWhitespace(r[|r| - 1]))
  {
    TrimmedSlice(s, TrimStart(s), Trim(s));
  }

  /** A suffix `t` of `s` after leading whitespace, cut down to a prefix `r`
      before trailing whitespace, is the slice of `s` at `|s| - |t|` with
      whitespace around it, and starts where `t` does. */
  lemma TrimmedSlice(s: string, t: string, r: string)
    requires |t| <= |s| && t == s[|s| - |t|..]
    requires forall i :: 0 <= i < |s| - |t| ==> IsWhitespace(s[i])
    requires |r| <= |t| && r == t[..|r|]
    requires forall i :: |r| <= i < |t| ==> IsWhitespace(t[i])
    ensures WhitespaceAround(s, r, |s| - |t|)
    ensures r != [] ==> r[0] == t[0]
  {
    var k := |s| - |t|;
    forall i | k + |r| <= i < |s|
      ensures IsWhitespace(s[i])
    {
      assert s[i] == t[i - k];
    }
  }

  /** `!s.trim()` holds, i.e. trimming leaves the empty string, exactly when
      `s` is blank. */
  lemma TrimEmptyIffBlank(s: string)
    ensures Trim(s) == [] <==> IsBlank(s)
  {
    var t := TrimStart(s);
    if Trim(s) == [] {
      assert t == [];
    }
  }

  /** `!s.trim()`: the test every trimmed field starts with. */
  function Blanked(s: string): (r: bool)
    ensures r <==> IsBlank(s)
  {
    TrimEmptyIffBlank(s);
    Trim(s) == []
  }
}
