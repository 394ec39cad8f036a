/**
 * The two string operations the typed-answer check uses: case folding and
 * trimming. Case folding covers ASCII and the basic Cyrillic block, the
 * alphabets the lessons and the on-screen keyboard use; trimming removes the
 * characters that JavaScript's String.prototype.trim treats as white space or
 * line terminators.
 */
module Text {

  predicate IsWhitespace(c: char) {
    || c == ' ' || c == '\t' || c == '\n' || c == '\U{000B}' || c == '\U{000C}' || c == '\r'
    || c == '\U{00A0}' || c == '\U{1680}' || ('\U{2000}' <= c <= '\U{200A}')
    || c == '\U{2028}' || c == '\U{2029}' || c == '\U{202F}' || c == '\U{205F}'
    || c == '\U{3000}' || c == '\U{FEFF}'
  }

  predicate AllWhitespace(s: string) {
    forall i :: 0 <= i < |s| ==> IsWhitespace(s[i])
  }

  /** Lower-case form of one character: A-Z, the Cyrillic capitals А-Я and Ѐ-Џ. */
  function LowerChar(c: char): char {
    if 'A' <= c <= 'Z' then (c as int + 32) as char
    else if '\U{0410}' <= c <= '\U{042F}' then (c as int + 32) as char
    else if '\U{0400}' <= c <= '\U{040F}' then (c as int + 80) as char
    else c
  }

  /** Case folding never turns white space into text or text into white space. */
  lemma LowerCharKeepsWhitespace(c: char)
    ensures IsWhitespace(LowerChar(c)) == IsWhitespace(c)
  {
  }

  function Lower(s: string): (r: string)
    ensures |r| == |s|
    ensures forall i :: 0 <= i < |s| ==> r[i] == LowerChar(s[i])
  {
    if s == [] then [] else [LowerChar(s[0])] + Lower(s[1..])
  }

  /** Drops the leading white space. */
  function TrimStart(s: string): (r: string)
    ensures |r| <= |s| && r == s[|s| - |r|..]
    ensures r != [] ==> !IsWhitespace(r[0])
    ensures AllWhitespace(s[..|s| - |r|])
  {
    if s != [] && IsWhitespace(s[0]) then TrimStart(s[1..]) else s
  }

  /** Drops the trailing white space. */
  function TrimEnd(s: string): (r: string)
    ensures |r| <= |s| && r == s[..|r|]
    ensures r != [] ==> !IsWhitespace(r[|r| - 1])
    ensures AllWhitespace(s[|r|..])
  {
    if s != [] && IsWhitespace(s[|s| - 1]) then TrimEnd(s[..|s| - 1]) else s
  }

  function Trim(s: string): string {
    TrimEnd(TrimStart(s))
  }

  lemma LowerAppend(a: string, b: string)
    ensures Lower(a + b) == Lower(a) + Lower(b)
  {
    assert forall i :: 0 <= i < |a + b| ==> Lower(a + b)[i] == (Lower(a) + Lower(b))[i];
  }

  /** Case folding is idempotent: folding an already folded string changes nothing. */
  lemma LowerIdempotent(s: string)
    ensures Lower(Lower(s)) == Lower(s)
  {
    assert forall i :: 0 <= i < |s| ==> Lower(Lower(s))[i] == Lower(s)[i];
  }

  lemma {:induction false} TrimStartLower(s: string)
    ensures TrimStart(Lower(s)) == Lower(TrimStart(s))
  {
    if s != [] {
      LowerCharKeepsWhitespace(s[0]);
      assert Lower(s)[1..] == Lower(s[1..]);
      if IsWhitespace(s[0]) {
        TrimStartLower(s[1..]);
      }
    }
  }

  lemma {:induction false} TrimEndLower(s: string)
    ensures TrimEnd(Lower(s)) == Lower(TrimEnd(s))
  {
    if s != [] {
      var n := |s|;
      LowerCharKeepsWhitespace(s[n - 1]);
      assert Lower(s)[..n - 1] == Lower(s[..n - 1]);
      if IsWhitespace(s[n - 1]) {
        TrimEndLower(s[..n - 1]);
      }
    }
  }

  /**
   * Trimming and case folding commute, so lowering then trimming the typed
   * text (the order the quiz uses) is the same as trimming then lowering it.
   */
  lemma TrimLowerCommute(s: string)
    ensures Trim(Lower(s)) == Lower(Trim(s))
  {
    TrimStartLower(s);
    TrimEndLower(TrimStart(s));
  }

  lemma {:induction false} TrimStartOfWhitespacePrefix(p: string, t: string)
    requires AllWhitespace(p)
    ensures TrimStart(p + t) == TrimStart(t)
  {
    if p == [] {
      assert p + t == t;
    } else {
      assert (p + t)[0] == p[0] && IsWhitespace(p[0]);
      assert (p + t)[1..] == p[1..] + t;
      TrimStartOfWhitespacePrefix(p[1..], t);
    }
  }

  lemma {:induction false} TrimEndOfWhitespaceSuffix(t: string, q: string)
    requires AllWhitespace(q)
    ensures TrimEnd(t + q) == TrimEnd(t)
  {
    if q == [] {
      assert t + q == t;
    } else {
      var n := |q|;
      assert (t + q)[|t + q| - 1] == q[n - 1] && IsWhitespace(q[n - 1]);
      assert (t + q)[..|t + q| - 1] == t + q[..n - 1];
      TrimEndOfWhitespaceSuffix(t, q[..n - 1]);
    }
  }

  lemma {:induction false} TrimStartAppend(s: string, q: string)
    ensures TrimStart(s + q) == if TrimStart(s) != [] then TrimStart(s) + q else TrimStart(q)
  {
    if s == [] {
      assert s + q == q;
    } else {
      assert (s + q)[0] == s[0];
      if IsWhitespace(s[0]) {
        assert (s + q)[1..] == s[1..] + q;
        TrimStartAppend(s[1..], q);
      }
    }
  }

  /** White space around a string does not survive trimming. */
  lemma TrimIgnoresPadding(p: string, s: string, q: string)
    requires AllWhitespace(p) && AllWhitespace(q)
    ensures Trim(p + s + q) == Trim(s)
  {
    assert p + s + q == p + (s + q);
    TrimStartOfWhitespacePrefix(p, s + q);
    TrimStartAppend(s, q);
    if TrimStart(s) != [] {
      TrimEndOfWhitespaceSuffix(TrimStart(s), q);
    } else {
      assert TrimStart(q) == [];
    }
  }

  /** White space after a string does not survive trimming. */
  lemma TrimIgnoresTrailing(s: string, w: string)
    requires AllWhitespace(w)
    ensures Trim(s + w) == Trim(s)
  {
    TrimStartAppend(s, w);
    if TrimStart(s) != [] {
      TrimEndOfWhitespaceSuffix(TrimStart(s), w);
    } else {
      assert TrimStart(w) == [];
    }
  }
}
