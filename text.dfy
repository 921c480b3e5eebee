/**
 * Whitespace and `String.prototype.trim`, as the user store uses them to
 * validate and normalise a submitted name.
 */
module Text {

  /** The code points removed by trim: the WhiteSpace and LineTerminator
      characters of ECMAScript as this model lists them. */
  predicate IsSpace(c: char): (b: bool)
    ensures c == ' ' || c == '\t' || c == '\n' || c == '\r' ==> b
    ensures b ==> !('0' <= c <= '9') && !('A' <= c <= 'Z') && !('a' <= c <= 'z')
  {
    || c == '\t' || c == '\n' || c == '\U{000B}' || c == '\U{000C}' || c == '\r'
    || c == ' ' || c == '\U{00A0}' || c == '\U{1680}'
    || ('\U{2000}' <= c <= '\U{200A}')
    || c == '\U{2028}' || c == '\U{2029}' || c == '\U{202F}' || c == '\U{205F}'
    || c == '\U{3000}' || c == '\U{FEFF}'
  }

  /** Every character of `s` is whitespace (the empty string included). */
  predicate IsBlank(s: string)
  {
    forall i :: 0 <= i < |s| ==> IsSpace(s[i])
  }

  /** Neither end of `s` is whitespace. */
  predicate IsUnpadded(s: string)
  {
    s == [] || (!IsSpace(s[0]) && !IsSpace(s[|s| - 1]))
  }

  /** `r` occurs in `s` at offset `i`, with only whitespace before and
      after it. */
  predicate BlankAround(s: string, i: int, r: string)
  {
    0 <= i <= |s| - |r| && s[i..i + |r|] == r && IsBlank(s[..i]) && IsBlank(s[i + |r|..])
  }

  /** `s` with its leading whitespace removed. */
  function TrimStart(s: string): (r: string)
    ensures |r| <= |s| && r == s[|s| - |r|..]
    ensures IsBlank(s[..|s| - |r|])
    ensures r == [] || !IsSpace(r[0])
  {
    if |s| > 0 && IsSpace(s[0]) then
      var r := TrimStart(s[1..]);
      assert s[..|s| - |r|] == [s[0]] + s[1..][..|s| - 1 - |r|];
      r
    else
      s
  }

  /** `s` with its trailing whitespace removed. */
  function TrimEnd(s: string): (r: string)
    ensures |r| <= |s| && r == s[..|r|]
    ensures IsBlank(s[|r|..])
    ensures r == [] || !IsSpace(r[|r| - 1])
  {
    if |s| > 0 && IsSpace(s[|s| - 1]) then
      var r := TrimEnd(s[..|s| - 1]);
      assert s[|r|..] == s[..|s| - 1][|r|..] + [s[|s| - 1]];
      r
    else
      s
  }

  /** `s` with whitespace removed from both ends: the result is a slice of
      `s` preceded and followed only by whitespace, with no whitespace at
      either end of its own. */
  function Trim(s: string): (r: string)
    ensures |r| <= |s|
    ensures exists i :: BlankAround(s, i, r)
    ensures IsUnpadded(r)
  {
    TrimmedSliceOf(s);
    TrimmedUnpadded(s);
    TrimEnd(TrimStart(s))
  }

  /** Removing both ends leaves no whitespace at either end. */
  lemma TrimmedUnpadded(s: string)
    ensures IsUnpadded(TrimEnd(TrimStart(s)))
  {
    var t := TrimStart(s);
    var r := TrimEnd(t);
    if r != [] {
      assert r[0] == t[0];
    }
  }

  /** What is left after removing both ends is a slice of `s` surrounded
      by the whitespace that was removed. */
  lemma TrimmedSliceOf(s: string)
    ensures BlankAround(s, |s| - |TrimStart(s)|, TrimEnd(TrimStart(s)))
  {
    PrefixOfSuffix(s, TrimStart(s), TrimEnd(TrimStart(s)));
  }

  /** When `t` is `s` without some leading whitespace and `r` is `t`
      without some trailing whitespace, `r` sits in `s` with only that
      whitespace around it. */
  lemma PrefixOfSuffix(s: string, t: string, r: string)
    requires |t| <= |s| && t == s[|s| - |t|..] && IsBlank(s[..|s| - |t|])
    requires |r| <= |t| && r == t[..|r|] && IsBlank(t[|r|..])
    ensures BlankAround(s, |s| - |t|, r)
  {
    var i := |s| - |t|;
    assert s[i..i + |r|] == s[i..][..|r|];
    assert s[i + |r|..] == s[i..][|r|..];
  }

  /** Removing leading whitespace from blank text followed by text that does
      not start with whitespace leaves exactly that text. */
  lemma TrimStartOfPadded(p: string, t: string)
    requires IsBlank(p)
    requires t == [] || !IsSpace(t[0])
    ensures TrimStart(p + t) == t
  {
    var s := p + t;
    var r := TrimStart(s);
    assert r == s[|p|..] == t;
  }

  /** Removing trailing whitespace from text that does not end in whitespace
      followed by blank text leaves exactly that text. */
  lemma TrimEndOfPadded(t: string, q: string)
    requires IsBlank(q)
    requires t == [] || !IsSpace(t[|t| - 1])
    ensures TrimEnd(t + q) == t
  {
    var s := t + q;
    var r := TrimEnd(s);
    assert r == s[..|t|] == t;
  }

  /** Trim is determined by the shape of its input: for blank padding `p`
      and `q` around an unpadded core `m`, trimming yields `m`. Together with
      the contract of Trim this characterises trim completely. */
  lemma TrimOfPadded(p: string, m: string, q: string)
    requires IsBlank(p) && IsBlank(q)
    requires IsUnpadded(m)
    ensures Trim(p + m + q) == m
  {
    if m == [] {
      assert p + m + q == p + q;
      var s := p + q;
      assert IsBlank(s) by {
        forall i | 0 <= i < |s| ensures IsSpace(s[i]) {
          if i < |p| { assert s[i] == p[i]; } else { assert s[i] == q[i - |p|]; }
        }
      }
      assert TrimStart(s) == [];
    } else {
      assert p + m + q == p + (m + q);
      TrimStartOfPadded(p, m + q);
      TrimEndOfPadded(m, q);
    }
  }

  /** Trimming twice is the same as trimming once. */
  lemma TrimIdempotent(s: string)
    ensures Trim(Trim(s)) == Trim(s)
  {
    var r := Trim(s);
    assert [] + r + [] == r;
    TrimOfPadded([], r, []);
  }

  /** Trim yields the empty string exactly when its input is blank. */
  lemma TrimEmptyIffBlank(s: string)
    ensures Trim(s) == [] <==> IsBlank(s)
  {
  }
}
