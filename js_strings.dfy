/**
 * The JavaScript string built-ins the quiz service relies on: `trim`, `toLowerCase`,
 * `includes` and `length` (which counts UTF-16 code units, not characters).
 */
module JsStrings {

  /** The ECMAScript WhiteSpace and LineTerminator code points: exactly what `trim` removes. */
  predicate IsWhitespace(c: char) {
    var n := c as int;
    n == 0x09 || n == 0x0A || n == 0x0B || n == 0x0C || n == 0x0D || n == 0x20 || n == 0xA0
    || n == 0x1680 || (0x2000 <= n <= 0x200A) || n == 0x2028 || n == 0x2029 || n == 0x202F
    || n == 0x205F || n == 0x3000 || n == 0xFEFF
  }

  /** A string made only of whitespace (the empty string included). */
  predicate AllWhitespace(s: string) {
    forall i :: 0 <= i < |s| ==> IsWhitespace(s[i])
  }

  /** The number of whitespace characters `s` starts with. */
  function LeadingBlanks(s: string): (n: nat)
    ensures n <= |s|
    ensures forall i :: 0 <= i < n ==> IsWhitespace(s[i])
    ensures n == |s| || !IsWhitespace(s[n])
  {
    if s != [] && IsWhitespace(s[0]) then
      var n := 1 + LeadingBlanks(s[1..]);
      assert forall i :: 0 < i < |s| ==> s[i] == s[1..][i - 1];
      n
    else 0
  }

  /** The number of whitespace characters `s` ends with. */
  function TrailingBlanks(s: string): (n: nat)
    ensures n <= |s|
    ensures forall i :: |s| - n <= i < |s| ==> IsWhitespace(s[i])
    ensures n == |s| || !IsWhitespace(s[|s| - 1 - n])
  {
    if s != [] && IsWhitespace(s[|s| - 1]) then
      var n := 1 + TrailingBlanks(s[..|s| - 1]);
      assert forall i :: 0 <= i < |s| - 1 ==> s[i] == s[..|s| - 1][i];
      n
    else 0
  }

  /** `String.prototype.trim`: `s` with a run of whitespace removed from each end, leaving an
      infix that neither starts nor ends with whitespace; empty exactly when `s` is whitespace only. */
  function Trim(s: string): (r: string)
    ensures |r| <= |s|
    ensures exists a: nat ::
      && a + |r| <= |s|
      && AllWhitespace(s[..a])
      && r == s[a..a + |r|]
      && AllWhitespace(s[a + |r|..])
    ensures r == [] || (!IsWhitespace(r[0]) && !IsWhitespace(r[|r| - 1]))
    ensures r == [] <==> AllWhitespace(s)
  {
    var a := LeadingBlanks(s);
    var b := TrailingBlanks(s[a..]);
    TrimBounds(s, a, b);
    var r := s[a..|s| - b];
    assert a + |r| == |s| - b;
    r
  }

  /** The blanks `Trim` removes: all of `s` when it is blank, and otherwise a run of
      whitespace at each end that stops at a non-blank. */
  lemma TrimBounds(s: string, a: nat, b: nat)
    requires a == LeadingBlanks(s) && b == TrailingBlanks(s[a..])
    ensures a + b <= |s|
    ensures AllWhitespace(s[..a]) && AllWhitespace(s[|s| - b..])
    ensures a < |s| ==> a + b < |s| && !IsWhitespace(s[a]) && !IsWhitespace(s[|s| - 1 - b])
    ensures a == |s| <==> AllWhitespace(s)
  {
    LeadingBlanksOfBlank(s);
    assert forall i :: |s| - b <= i < |s| ==> s[i] == s[a..][i - a];
    if a < |s| {
      TrailingStopsAtNonBlank(s, a, b);
    }
  }

  /** A string is blank exactly when all of it is leading blanks. */
  lemma LeadingBlanksOfBlank(s: string)
    ensures LeadingBlanks(s) == |s| <==> AllWhitespace(s)
  {
    var a := LeadingBlanks(s);
    if a < |s| {
      assert !IsWhitespace(s[a]);
    }
  }

  /** After a non-blank, the trailing blanks stop before it, at a non-blank. */
  lemma TrailingStopsAtNonBlank(s: string, a: nat, b: nat)
    requires a < |s| && !IsWhitespace(s[a])
    requires b == TrailingBlanks(s[a..])
    ensures a + b < |s| && !IsWhitespace(s[|s| - 1 - b])
  {
    var t := s[a..];
    assert t[0] == s[a];
    assert t[|t| - 1 - b] == s[|s| - 1 - b];
  }

  /** Trimming twice is trimming once. */
  lemma TrimIdempotent(s: string)
    ensures Trim(Trim(s)) == Trim(s)
  {
    var r := Trim(s);
    if r != [] {
      assert LeadingBlanks(r) == 0;
      assert TrailingBlanks(r) == 0;
    }
  }

  /** A string that neither starts nor ends with whitespace is its own trim. */
  lemma TrimOfTrimmed(s: string)
    requires s != [] && !IsWhitespace(s[0]) && !IsWhitespace(s[|s| - 1])
    ensures Trim(s) == s
  {
    assert LeadingBlanks(s) == 0;
    assert s[0..] == s;
    assert TrailingBlanks(s) == 0;
  }

  predicate IsAsciiUpper(c: char) {
    'A' <= c <= 'Z'
  }

  /** `toLowerCase` on one character; only the ASCII letters are mapped. */
  function ToLowerChar(c: char): char {
    if IsAsciiUpper(c) then (c as int + 32) as char else c
  }

  /** `String.prototype.toLowerCase`, restricted to the ASCII range: keeps the length and
      leaves no upper-case ASCII letter behind. */
  function ToLower(s: string): (r: string)
    ensures |r| == |s|
    ensures forall i :: 0 <= i < |r| ==> !IsAsciiUpper(r[i])
  {
    if s == [] then [] else [ToLowerChar(s[0])] + ToLower(s[1..])
  }

  /** Lower-casing twice is lower-casing once. */
  lemma {:induction false} ToLowerIdempotent(s: string)
    ensures ToLower(ToLower(s)) == ToLower(s)
  {
    if s != [] {
      ToLowerIdempotent(s[1..]);
      assert ToLower(s)[1..] == ToLower(s[1..]);
    }
  }

  /** Lower-casing works character by character, so it distributes over concatenation. */
  lemma {:induction false} ToLowerAppend(a: string, b: string)
    ensures ToLower(a + b) == ToLower(a) + ToLower(b)
  {
    if a != [] {
      ToLowerAppend(a[1..], b);
      assert (a + b)[1..] == a[1..] + b;
    } else {
      assert a + b == b;
    }
  }

  /** A string without upper-case ASCII letters is its own lower case. */
  lemma {:induction false} ToLowerOfLower(s: string)
    requires forall i :: 0 <= i < |s| ==> !IsAsciiUpper(s[i])
    ensures ToLower(s) == s
  {
    if s != [] {
      ToLowerOfLower(s[1..]);
      assert s == [s[0]] + s[1..];
    }
  }

  /** Strings that differ only in the case of ASCII letters lower-case to the same string. */
  lemma {:induction false} ToLowerIgnoresCase(s: string, t: string)
    requires |s| == |t|
    requires forall i :: 0 <= i < |s| ==> ToLowerChar(s[i]) == ToLowerChar(t[i])
    ensures ToLower(s) == ToLower(t)
  {
    if s != [] {
      ToLowerIgnoresCase(s[1..], t[1..]);
    }
  }

  predicate IsPrefix(p: string, s: string) {
    |p| <= |s| && s[..|p|] == p
  }

  /** `s.includes(p)`: some suffix of `s` starts with `p`. */
  predicate Includes(s: string, p: string) {
    IsPrefix(p, s) || (s != [] && Includes(s[1..], p))
  }

  /** A string that contains `p` between two other strings includes `p`. */
  lemma {:induction false} IncludesInfix(a: string, p: string, b: string)
    ensures Includes(a + p + b, p)
  {
    if a == [] {
      assert a + p + b == p + b;
      assert IsPrefix(p, p + b);
    } else {
      IncludesInfix(a[1..], p, b);
      assert (a + p + b)[1..] == a[1..] + p + b;
    }
  }

  /** `p` occurs in `s` starting at position `i`. */
  predicate OccursAt(s: string, p: string, i: int) {
    0 <= i && i + |p| <= |s| && s[i..i + |p|] == p
  }

  /** `includes` is the infix test: `p` occurs in `s` at some position. */
  lemma {:induction false} IncludesIffOccurs(s: string, p: string)
    ensures Includes(s, p) <==> exists i :: OccursAt(s, p, i)
  {
    if IsPrefix(p, s) {
      assert OccursAt(s, p, 0);
    } else if s == [] {
      assert forall i :: !OccursAt(s, p, i);
    } else {
      IncludesIffOccurs(s[1..], p);
      if exists i :: OccursAt(s, p, i) {
        var i :| OccursAt(s, p, i);
        assert i != 0;
        assert OccursAt(s[1..], p, i - 1);
      }
      if Includes(s[1..], p) {
        var j :| OccursAt(s[1..], p, j);
        assert OccursAt(s, p, j + 1);
      }
    }
  }

  /** Every string includes itself. */
  lemma IncludesSelf(s: string)
    ensures Includes(s, s)
  {
    IncludesInfix([], s, []);
    assert [] + s + [] == s;
  }

  /** A string only includes strings no longer than itself. */
  lemma {:induction false} IncludesNoLonger(s: string, p: string)
    requires Includes(s, p)
    ensures |p| <= |s|
  {
    if !IsPrefix(p, s) {
      IncludesNoLonger(s[1..], p);
    }
  }

  /** The number of UTF-16 code units of one character. */
  function CodeUnits(c: char): nat {
    if c as int > 0xFFFF then 2 else 1
  }

  /** JavaScript's `length` of a string: its UTF-16 code units, between one and two per character. */
  function Utf16Length(s: string): (n: nat)
    ensures |s| <= n <= 2 * |s|
  {
    if s == [] then 0 else Utf16Length(s[..|s| - 1]) + CodeUnits(s[|s| - 1])
  }
}
