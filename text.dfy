/** String helpers with JavaScript's meaning: `startsWith`, `includes`,
    and `trim` with the ECMAScript whitespace and line-terminator sets. */
module Text {

  /** `s.startsWith(prefix)`. */
  predicate StartsWith(s: string, prefix: string) {
    |prefix| <= |s| && s[..|prefix|] == prefix
  }

  /** `needle` occurs in `s` starting at index `i`. */
  predicate OccursAt(s: string, needle: string, i: int) {
    0 <= i && i + |needle| <= |s| && s[i..i + |needle|] == needle
  }

  /** `s.includes(needle)`. */
  predicate Contains(s: string, needle: string) {
    exists i | 0 <= i <= |s| :: OccursAt(s, needle, i)
  }

  /** `s.endsWith(suffix)`. */
  predicate EndsWith(s: string, suffix: string) {
    |suffix| <= |s| && s[|s| - |suffix|..] == suffix
  }

  /** The middle piece of a concatenation occurs in it. */
  lemma ContainsMiddle(a: string, b: string, c: string)
    ensures Contains(a + b + c, b)
  {
    assert (a + b + c)[|a|..|a| + |b|] == b;
    assert OccursAt(a + b + c, b, |a|);
  }

  /** The last piece of a concatenation ends it. */
  lemma EndsWithLast(a: string, b: string)
    ensures EndsWith(a + b, b)
  {
    assert (a + b)[|a|..] == b;
  }

  /** ECMAScript LineTerminator: the characters the regular-expression `.` does not match. */
  predicate IsLineTerminator(c: char) {
    c == '\n' || c == '\r' || c == '\U{2028}' || c == '\U{2029}'
  }

  /** ECMAScript WhiteSpace (tab, vertical tab, form feed, space, no-break space,
      byte-order mark and the Unicode space separators). */
  predicate IsWhiteSpace(c: char) {
    || c == '\t' || c == '\U{000B}' || c == '\U{000C}' || c == ' '
    || c == '\U{00A0}' || c == '\U{FEFF}' || c == '\U{1680}'
    || ('\U{2000}' <= c <= '\U{200A}')
    || c == '\U{202F}' || c == '\U{205F}' || c == '\U{3000}'
  }

  /** What `String.prototype.trim` strips from both ends. */
  predicate IsTrimmable(c: char) {
    IsWhiteSpace(c) || IsLineTerminator(c)
  }

  /** `r` is `s[a..]` cut to `|r|` characters, with only trimmable characters around it. */
  predicate IsInfixAt(s: string, a: int, r: string) {
    && 0 <= a && a + |r| <= |s| && r == s[a..a + |r|]
    && (forall i :: 0 <= i < a ==> IsTrimmable(s[i]))
    && (forall i :: a + |r| <= i < |s| ==> IsTrimmable(s[i]))
  }

  /** `s.trim()`: drops trimmable characters from the front, then from the back. */
  function Trim(s: string): string {
    if s != [] && IsTrimmable(s[0]) then Trim(s[1..])
    else if s != [] && IsTrimmable(s[|s| - 1]) then Trim(s[..|s| - 1])
    else s
  }

  /** The trim of `s` is the infix of `s` that neither starts nor ends with a
      trimmable character, everything around it being trimmable. */
  lemma {:induction false} TrimIsInfix(s: string)
    ensures exists a :: IsInfixAt(s, a, Trim(s))
    ensures Trim(s) != [] ==> !IsTrimmable(Trim(s)[0]) && !IsTrimmable(Trim(s)[|Trim(s)| - 1])
  {
    var r := Trim(s);
    if s != [] && IsTrimmable(s[0]) {
      TrimIsInfix(s[1..]);
      var a :| IsInfixAt(s[1..], a, r);
      InfixAfterFirst(s, a, r);
    } else if s != [] && IsTrimmable(s[|s| - 1]) {
      TrimIsInfix(s[..|s| - 1]);
      var a :| IsInfixAt(s[..|s| - 1], a, r);
      InfixBeforeLast(s, a, r);
    } else {
      assert IsInfixAt(s, 0, r);
    }
  }

  /** An infix of `s[1..]` is one of `s` when `s[0]` is trimmable. */
  lemma InfixAfterFirst(s: string, a: int, r: string)
    requires s != [] && IsTrimmable(s[0]) && IsInfixAt(s[1..], a, r)
    ensures IsInfixAt(s, a + 1, r)
  {
    var t := s[1..];
    forall i | 0 <= i < a + 1 ensures IsTrimmable(s[i]) {
      if i > 0 { assert s[i] == t[i - 1]; }
    }
    forall i | a + 1 + |r| <= i < |s| ensures IsTrimmable(s[i]) {
      assert s[i] == t[i - 1];
    }
    assert t[a..a + |r|] == s[a + 1..a + 1 + |r|];
  }

  /** An infix of `s[..|s| - 1]` is one of `s` when the last character is trimmable. */
  lemma InfixBeforeLast(s: string, a: int, r: string)
    requires s != [] && IsTrimmable(s[|s| - 1]) && IsInfixAt(s[..|s| - 1], a, r)
    ensures IsInfixAt(s, a, r)
  {
    var t := s[..|s| - 1];
    forall i | 0 <= i < a ensures IsTrimmable(s[i]) {
      assert s[i] == t[i];
    }
    forall i | a + |r| <= i < |s| ensures IsTrimmable(s[i]) {
      if i < |s| - 1 { assert s[i] == t[i]; }
    }
    assert t[a..a + |r|] == s[a..a + |r|];
  }

  /** Text that has nothing to trim is its own trim. */
  lemma TrimOfTrimmed(s: string)
    requires s != [] ==> !IsTrimmable(s[0]) && !IsTrimmable(s[|s| - 1])
    ensures Trim(s) == s
  {
  }
}
