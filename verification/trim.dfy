/**
 * The string trimming that the "edit" click applies to every string field of a
 * customer record: JavaScript's String.prototype.trim, which removes leading and
 * trailing white space and line terminators (ECMA-262, section 22.1.3.32, with the
 * character classes of sections 12.2 "White Space" and 12.3 "Line Terminators").
 */
module Strings {

  /** A white-space or line-terminator character in the sense of ECMA-262:
      TAB, VT, FF, SP, NBSP, ZWNBSP, every other "Space_Separator" (Zs) character,
      LF, CR, LINE SEPARATOR and PARAGRAPH SEPARATOR. */
  predicate IsWhitespace(c: char) {
    || c == '\t' || c == '\U{000B}' || c == '\U{000C}' || c == ' '
    || c == '\U{00A0}' || c == '\U{FEFF}'
    || c == '\U{1680}' || ('\U{2000}' <= c <= '\U{200A}')
    || c == '\U{202F}' || c == '\U{205F}' || c == '\U{3000}'
    || c == '\n' || c == '\r' || c == '\U{2028}' || c == '\U{2029}'
  }

  predicate AllWhitespace(s: string) {
    forall k :: 0 <= k < |s| ==> IsWhitespace(s[k])
  }

  /** Neither the first nor the last character is white space. */
  predicate IsTrimmed(s: string) {
    s == [] || (!IsWhitespace(s[0]) && !IsWhitespace(s[|s| - 1]))
  }

  /** Drops the leading white space: the result is the longest suffix of `s`
      that does not start with white space. */
  function TrimStart(s: string): (r: string)
    ensures |r| <= |s| && r == s[|s| - |r|..]
    ensures AllWhitespace(s[..|s| - |r|])
    ensures r == [] || !IsWhitespace(r[0])
  {
    if s != [] && IsWhitespace(s[0]) then
      var r := TrimStart(s[1..]);
      assert s[..|s| - |r|] == [s[0]] + s[1..][..|s| - 1 - |r|];
      r
    else
      s
  }

  /** Drops the trailing white space: the result is the longest prefix of `s`
      that does not end with white space. */
  function TrimEnd(s: string): (r: string)
    ensures |r| <= |s| && r == s[..|r|]
    ensures AllWhitespace(s[|r|..])
    ensures r == [] || !IsWhitespace(r[|r| - 1])
  {
    if s != [] && IsWhitespace(s[|s| - 1]) then
      var r := TrimEnd(s[..|s| - 1]);
      assert s[|r|..] == s[..|s| - 1][|r|..] + [s[|s| - 1]];
      r
    else
      s
  }

  /** `s` is the white space `s[..i]`, then `r`, then the white space after it. */
  predicate WhitespaceAround(s: string, i: int, r: string) {
    && 0 <= i <= |s| - |r|
    && r == s[i..i + |r|]
    && AllWhitespace(s[..i])
    && AllWhitespace(s[i + |r|..])
  }

  /** String.prototype.trim: `s` is white space, then the result, then white space,
      and the result neither starts nor ends with white space. */
  function Trim(s: string): (r: string)
    ensures IsTrimmed(r)
    ensures exists i :: WhitespaceAround(s, i, r)
  {
    TrimStartEnd(s);
    TrimEnd(TrimStart(s))
  }

  /** Trimming the start and then the end leaves a trimmed string, surrounded in
      `s` by white space from the index where the start trimming stopped. */
  lemma {:induction false} TrimStartEnd(s: string)
    ensures IsTrimmed(TrimEnd(TrimStart(s)))
    ensures WhitespaceAround(s, |s| - |TrimStart(s)|, TrimEnd(TrimStart(s)))
  {
    TrimmedBetween(s, TrimStart(s), TrimEnd(TrimStart(s)));
  }

  /** If `t` is `s` less a white-space prefix and does not start with white space,
      and `r` is `t` less a white-space suffix and does not end with white space,
      then `r` is trimmed and sits in `s` between white space. */
  lemma TrimmedBetween(s: string, t: string, r: string)
    requires |t| <= |s| && t == s[|s| - |t|..] && AllWhitespace(s[..|s| - |t|])
    requires t == [] || !IsWhitespace(t[0])
    requires |r| <= |t| && r == t[..|r|] && AllWhitespace(t[|r|..])
    requires r == [] || !IsWhitespace(r[|r| - 1])
    ensures IsTrimmed(r)
    ensures WhitespaceAround(s, |s| - |t|, r)
  {
    if r != [] {
      assert r[0] == t[0];
    }
    SliceOfSuffix(s, |s| - |t|, |r|);
  }

  /** Slicing a suffix of `s` is slicing `s` itself, shifted by where the suffix starts. */
  lemma SliceOfSuffix(s: string, i: nat, n: nat)
    requires i + n <= |s|
    ensures s[i..][..n] == s[i..i + n]
    ensures s[i..][n..] == s[i + n..]
  {
  }

  lemma {:induction false} TrimStartSkips(a: string, t: string)
    requires AllWhitespace(a)
    requires t == [] || !IsWhitespace(t[0])
    ensures TrimStart(a + t) == t
  {
    if a != [] {
      assert (a + t)[1..] == a[1..] + t;
      TrimStartSkips(a[1..], t);
    } else {
      assert a + t == t;
    }
  }

  lemma {:induction false} TrimEndSkips(t: string, b: string)
    requires AllWhitespace(b)
    requires t == [] || !IsWhitespace(t[|t| - 1])
    ensures TrimEnd(t + b) == t
  {
    if b != [] {
      var b' := b[..|b| - 1];
      assert (t + b)[..|t + b| - 1] == t + b';
      TrimEndSkips(t, b');
    } else {
      assert t + b == t;
    }
  }

  /** Trim is characterised by its decomposition: whenever `s` is white space,
      then a trimmed string `m`, then white space, trimming `s` gives exactly `m`. */
  lemma {:induction false} TrimDecomposition(a: string, m: string, b: string)
    requires AllWhitespace(a) && AllWhitespace(b) && IsTrimmed(m)
    ensures Trim(a + m + b) == m
  {
    if m == [] {
      assert a + m + b == (a + b) + [];
      TrimStartSkips(a + b, []);
      TrimEndSkips([], []);
    } else {
      assert a + m + b == a + (m + b);
      TrimStartSkips(a, m + b);
      TrimEndSkips(m, b);
    }
  }

  /** A string is left alone by trim exactly when it is already trimmed. */
  lemma {:induction false} TrimFixedPoint(s: string)
    ensures Trim(s) == s <==> IsTrimmed(s)
  {
    if IsTrimmed(s) {
      assert [] + s + [] == s;
      TrimDecomposition([], s, []);
    }
  }

  /** Trimming twice changes nothing. */
  lemma {:induction false} TrimIdempotent(s: string)
    ensures Trim(Trim(s)) == Trim(s)
  {
    TrimFixedPoint(Trim(s));
  }

  /** Example: "  Acme  " trims to "Acme". */
  lemma {:induction false} TrimAcme()
    ensures Trim("  Acme  ") == "Acme"
  {
    assert "  Acme  " == "  " + "Acme" + "  ";
    TrimDecomposition("  ", "Acme", "  ");
  }
}
