/**
  The two string operations the inventory applies to user input and stored names:
  `String.prototype.trim` (the item name typed by the user) and
  `String.prototype.toLowerCase` (the case-insensitive name comparison).
 */
module Text {

  /** ECMAScript's WhiteSpace and LineTerminator code points: the characters `trim`
      removes and `parseInt` skips. */
  predicate IsWhitespace(c: char) {
    var n := c as int;
    n == 0x09 || n == 0x0A || n == 0x0B || n == 0x0C || n == 0x0D || n == 0x20
    || n == 0xA0 || n == 0x1680 || (0x2000 <= n <= 0x200A) || n == 0x2028 || n == 0x2029
    || n == 0x202F || n == 0x205F || n == 0x3000 || n == 0xFEFF
  }

  /** `s` without its leading whitespace: what is dropped is all whitespace and what is
      kept is a suffix of `s` that does not begin with whitespace. */
  function TrimStart(s: string): (r: string)
    ensures |r| <= |s| && r == s[|s| - |r|..]
    ensures forall i :: 0 <= i < |s| - |r| ==> IsWhitespace(s[i])
    ensures r == [] || !IsWhitespace(r[0])
  {
    if s != [] && IsWhitespace(s[0]) then TrimStart(s[1..]) else s
  }

  /** `s` without its trailing whitespace: what is dropped is all whitespace and what is
      kept is a prefix of `s` that does not end with whitespace. */
  function TrimEnd(s: string): (r: string)
    ensures |r| <= |s| && r == s[..|r|]
    ensures forall i :: |r| <= i < |s| ==> IsWhitespace(s[i])
    ensures r == [] || !IsWhitespace(r[|r| - 1])
  {
    if s != [] && IsWhitespace(s[|s| - 1]) then TrimEnd(s[..|s| - 1]) else s
  }

  /** `String.prototype.trim`: the result is the stretch of `s` left once `a` leading
      and some trailing characters, all of them whitespace, are dropped, and it neither
      starts nor ends with whitespace. */
  function Trim(s: string): (r: string)
    ensures var a := |s| - |TrimStart(s)|;
            && a + |r| <= |s|
            && r == s[a..a + |r|]
            && (forall i :: 0 <= i < a ==> IsWhitespace(s[i]))
            && (forall i :: a + |r| <= i < |s| ==> IsWhitespace(s[i]))
    ensures r == [] || (!IsWhitespace(r[0]) && !IsWhitespace(r[|r| - 1]))
  {
    var t := TrimStart(s);
    var r := TrimEnd(t);
    StretchBetweenWhitespace(s, t, r);
    r
  }

  /** Dropping whitespace from the front of `s` (giving `t`) and then from the back of
      `t` (giving `r`) leaves a stretch of `s` with only whitespace around it. */
  lemma StretchBetweenWhitespace(s: string, t: string, r: string)
    requires |t| <= |s| && t == s[|s| - |t|..]
    requires forall i :: 0 <= i < |s| - |t| ==> IsWhitespace(s[i])
    requires t == [] || !IsWhitespace(t[0])
    requires |r| <= |t| && r == t[..|r|]
    requires forall i :: |r| <= i < |t| ==> IsWhitespace(t[i])
    requires r == [] || !IsWhitespace(r[|r| - 1])
    ensures var a := |s| - |t|;
            && a + |r| <= |s|
            && r == s[a..a + |r|]
            && (forall i :: 0 <= i < a ==> IsWhitespace(s[i]))
            && (forall i :: a + |r| <= i < |s| ==> IsWhitespace(s[i]))
    ensures r == [] || (!IsWhitespace(r[0]) && !IsWhitespace(r[|r| - 1]))
  {
    var a := |s| - |t|;
    forall i | a + |r| <= i < |s| ensures IsWhitespace(s[i]) {
      assert s[i] == t[i - a];
    }
    if r != [] {
      assert r[0] == t[0];
    }
  }

  /** A trimmed string is empty exactly when the input held nothing but whitespace. */
  lemma TrimEmptyIff(s: string)
    ensures Trim(s) == [] <==> forall i :: 0 <= i < |s| ==> IsWhitespace(s[i])
  {
    var r := Trim(s);
    if r != [] {
      var a := |s| - |TrimStart(s)|;
      assert r[0] == s[a];
    }
  }

  /** Trimming twice trims nothing more. */
  lemma TrimIdempotent(s: string)
    ensures Trim(Trim(s)) == Trim(s)
  {
    var r := Trim(s);
    if r != [] {
      assert TrimStart(r) == r;
      assert TrimEnd(r) == r;
    }
  }

  /** A string that neither starts nor ends with whitespace is its own trim. */
  lemma TrimOfTrimmed(s: string)
    requires s == [] || (!IsWhitespace(s[0]) && !IsWhitespace(s[|s| - 1]))
    ensures Trim(s) == s
  {
  }

  /** Leading whitespace makes no difference once the start is trimmed. */
  lemma {:induction false} TrimStartSkipsPrefix(w: string, s: string)
    requires forall i :: 0 <= i < |w| ==> IsWhitespace(w[i])
    ensures TrimStart(w + s) == TrimStart(s)
  {
    if w != [] {
      assert (w + s)[1..] == w[1..] + s;
      TrimStartSkipsPrefix(w[1..], s);
    } else {
      assert w + s == s;
    }
  }

  /** `toLowerCase` on one code point, for the ASCII and Latin-1 letters: `A`..`Z` and
      U+00C0..U+00DE except the multiplication sign U+00D7 move up by 0x20. */
  function LowerChar(c: char): char {
    if 'A' <= c <= 'Z' || (0xC0 <= c as int <= 0xDE && c as int != 0xD7)
    then (c as int + 0x20) as char
    else c
  }

  /** `String.prototype.toLowerCase`, code point by code point. */
  function ToLower(s: string): (r: string)
    ensures |r| == |s|
  {
    seq(|s|, i requires 0 <= i < |s| => LowerChar(s[i]))
  }

  /** The inventory's name comparison: `a.toLowerCase() === b.toLowerCase()`. */
  predicate SameName(a: string, b: string) {
    ToLower(a) == ToLower(b)
  }

  /** The upper-case partner of a lower-case ASCII or Latin-1 letter: `a`..`z` and
      U+00E0..U+00FE except the division sign U+00F7 move down by 0x20. Every other code
      point is its own partner. */
  function UpperChar(c: char): char {
    if 'a' <= c <= 'z' || (0xE0 <= c as int <= 0xFE && c as int != 0xF7)
    then (c as int - 0x20) as char
    else c
  }

  /** Two code points compare equal after lower-casing exactly when they are equal or one
      is the upper-case partner of the other. */
  lemma LowerCharIffCaseOnly(a: char, b: char)
    ensures LowerChar(a) == LowerChar(b) <==> a == b || a == UpperChar(b) || b == UpperChar(a)
  {
  }

  /** The name comparison ignores letter case and nothing else: two names match exactly
      when they have the same length and, position by position, the code points are equal
      or one is the upper-case partner of the other. */
  lemma SameNameIffCaseOnly(s: string, t: string)
    ensures SameName(s, t) <==>
              |s| == |t| && forall i :: 0 <= i < |s| ==>
                s[i] == t[i] || s[i] == UpperChar(t[i]) || t[i] == UpperChar(s[i])
  {
    var ls, lt := ToLower(s), ToLower(t);
    if |s| == |t| {
      forall i | 0 <= i < |s|
        ensures ls[i] == lt[i] <==> s[i] == t[i] || s[i] == UpperChar(t[i]) || t[i] == UpperChar(s[i])
      {
        LowerCharIffCaseOnly(s[i], t[i]);
      }
      if forall i :: 0 <= i < |s| ==> ls[i] == lt[i] {
        assert ls == lt;
      }
    }
  }
}
