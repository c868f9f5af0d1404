/** The string primitives beneath the user schema's `trim` and `lowercase`
    options and its email pattern: ECMAScript white space, String.prototype.trim
    and (for ASCII letters) String.prototype.toLowerCase. */
module Strings {

  /** ECMAScript WhiteSpace or LineTerminator: exactly the characters that
      `trim` strips and that the regular-expression class `\s` matches. */
  predicate IsSpace(c: char) {
    || c == '\t' || c == '\n' || c == '\U{000B}' || c == '\U{000C}' || c == '\r'
    || c == ' ' || c == '\U{00A0}' || c == '\U{1680}'
    || ('\U{2000}' <= c <= '\U{200A}')
    || c == '\U{2028}' || c == '\U{2029}' || c == '\U{202F}' || c == '\U{205F}'
    || c == '\U{3000}' || c == '\U{FEFF}'
  }

  predicate AllSpace(s: string) {
    forall k | 0 <= k < |s| :: IsSpace(s[k])
  }

  /** In `s`, the `n` characters from position `i` on have only white space
      before and after them. */
  predicate Padded(s: string, i: nat, n: nat) {
    i + n <= |s| && AllSpace(s[..i]) && AllSpace(s[i + n..])
  }

  /** `t` occurs in `s` at position `i`, with only white space around it. */
  predicate InfixAt(s: string, i: nat, t: string) {
    Padded(s, i, |t|) && t == s[i..i + |t|]
  }

  /** Neither end of `s` is white space. */
  predicate Trimmed(s: string) {
    s == [] || (!IsSpace(s[0]) && !IsSpace(s[|s| - 1]))
  }

  /** Drops the leading white space: the result is the suffix of `s` that
      remains once a run of white space is taken off, and that run is maximal. */
  function TrimStart(s: string): (r: string)
    ensures |r| <= |s| && r == s[|s| - |r|..]
    ensures forall k | 0 <= k < |s| - |r| :: IsSpace(s[k])
    ensures r == [] || !IsSpace(r[0])
  {
    if |s| > 0 && IsSpace(s[0]) then
      var r := TrimStart(s[1..]);
      assert forall k | 1 <= k < |s| - |r| :: s[k] == s[1..][k - 1];
      r
    else
      s
  }

  /** Drops the trailing white space: the result is the prefix of `s` left
      once a maximal run of white space is taken off its end. */
  function TrimEnd(s: string): (r: string)
    ensures |r| <= |s| && r == s[..|r|]
    ensures forall k | |r| <= k < |s| :: IsSpace(s[k])
    ensures r == [] || !IsSpace(r[|r| - 1])
  {
    if |s| > 0 && IsSpace(s[|s| - 1]) then
      TrimEnd(s[..|s| - 1])
    else
      s
  }

  /** The length of the run of white space `s` starts with. */
  function LeadingSpace(s: string): (n: nat)
    ensures n <= |s| && AllSpace(s[..n]) && (n == |s| || !IsSpace(s[n]))
  {
    |s| - |TrimStart(s)|
  }

  /** String.prototype.trim: the infix of `s` that starts after its leading
      white space, has only white space after it and white space at neither
      of its ends. */
  function Trim(s: string): (r: string)
    ensures Trimmed(r) && InfixAt(s, LeadingSpace(s), r)
  {
    TrimEndOfTrimStart(s, TrimStart(s), TrimEnd(TrimStart(s)), LeadingSpace(s));
    TrimEnd(TrimStart(s))
  }

  /** When `t` is what TrimStart leaves of `s` and `r` what TrimEnd leaves
      of `t`, then `r` is an infix of `s` cut at `|s| - |t|`, with white space
      around it and at neither end. */
  lemma TrimEndOfTrimStart(s: string, t: string, r: string, n: nat)
    requires n == |s| - |t|
    requires |t| <= |s| && t == s[|s| - |t|..] && forall k | 0 <= k < |s| - |t| :: IsSpace(s[k])
    requires t == [] || !IsSpace(t[0])
    requires |r| <= |t| && r == t[..|r|] && forall k | |r| <= k < |t| :: IsSpace(t[k])
    requires r == [] || !IsSpace(r[|r| - 1])
    ensures Trimmed(r) && InfixAt(s, n, r)
  {
    var i := n;
    if r != [] {
      assert r[0] == t[0];
    }
    assert r == s[i..i + |r|] by {
      assert t == s[i..] && r == t[..|r|];
    }
    assert AllSpace(s[i + |r|..]) by {
      assert s[i + |r|..] == t[|r|..];
    }
  }

  /** A string that is already trimmed is left as it is. */
  lemma TrimmedIsFixed(s: string)
    requires Trimmed(s)
    ensures Trim(s) == s
  {
  }

  /** Trimming twice is trimming once. */
  lemma TrimIdempotent(s: string)
    ensures Trim(Trim(s)) == Trim(s)
  {
    TrimmedIsFixed(Trim(s));
  }

  /** Leading white space before a string that starts with a non-space
      character is exactly what TrimStart removes. */
  lemma TrimStartSkips(p: string, x: string)
    requires AllSpace(p) && (x == [] || !IsSpace(x[0]))
    ensures TrimStart(p + x) == x
  {
    var s := p + x;
    assert forall k | 0 <= k < |p| :: IsSpace(s[k]);
    assert x != [] ==> !IsSpace(s[|p|]);
    assert s[|p|..] == x;
  }

  /** Trailing white space after a string that ends with a non-space
      character is exactly what TrimEnd removes. */
  lemma TrimEndSkips(y: string, q: string)
    requires AllSpace(q) && (y == [] || !IsSpace(y[|y| - 1]))
    ensures TrimEnd(y + q) == y
  {
    var s := y + q;
    assert forall k | |y| <= k < |s| :: IsSpace(s[k]);
    assert y != [] ==> !IsSpace(s[|y| - 1]);
    assert s[..|y|] == y;
  }

  /** Two runs of white space make one. */
  lemma AllSpaceConcat(a: string, b: string)
    requires AllSpace(a) && AllSpace(b)
    ensures AllSpace(a + b)
  {
    forall k | 0 <= k < |a + b| ensures IsSpace((a + b)[k]) {
      if k >= |a| {
        assert (a + b)[k] == b[k - |a|];
      }
    }
  }

  /** A trimmed string between two runs of white space is what `trim` gives
      back: the trimmed infix is unique. */
  lemma TrimOfPadded(p: string, t: string, q: string, u: string)
    requires AllSpace(p) && Trimmed(t) && AllSpace(q) && u == p + t + q
    ensures Trim(u) == t
  {
    if t == [] {
      assert u == p + q;
      AllSpaceConcat(p, q);
      TrimStartSkips(p + q, []);
      assert p + q + [] == p + q;
    } else {
      assert u == p + (t + q);
      TrimStartSkips(p, t + q);
      TrimEndSkips(t, q);
    }
  }

  /** White space added around a string does not change what `trim` gives. */
  lemma TrimIgnoresPadding(p: string, s: string, q: string)
    requires AllSpace(p) && AllSpace(q)
    ensures Trim(p + s + q) == Trim(s)
  {
    TrimOfPaddedInfix(p, s, q, LeadingSpace(s), Trim(s));
  }

  /** A trimmed infix of `s` with only white space around it in `p + s + q`
      is what `trim` gives for `p + s + q`. */
  lemma TrimOfPaddedInfix(p: string, s: string, q: string, i: nat, t: string)
    requires AllSpace(p) && AllSpace(q) && Trimmed(t)
    requires InfixAt(s, i, t)
    ensures Trim(p + s + q) == t
  {
    Regroup(p, s, q, i, i + |t|);
    AllSpaceConcat(p, s[..i]);
    AllSpaceConcat(s[i + |t|..], q);
    TrimOfPadded(p + s[..i], t, s[i + |t|..] + q, p + s + q);
  }

  /** Cutting `s` at `i` and `j` and moving the outer pieces into the padding. */
  lemma Regroup(p: string, s: string, q: string, i: nat, j: nat)
    requires i <= j <= |s|
    ensures p + s + q == (p + s[..i]) + s[i..j] + (s[j..] + q)
  {
    assert s == s[..i] + s[i..j] + s[j..];
  }

  predicate IsUpper(c: char) {
    'A' <= c <= 'Z'
  }

  function LowerChar(c: char): char {
    if IsUpper(c) then (c as int + 32) as char else c
  }

  /** No upper-case ASCII letter occurs in `s`. */
  predicate LowerCased(s: string) {
    forall k | 0 <= k < |s| :: !IsUpper(s[k])
  }

  /** toLowerCase restricted to ASCII: every letter A-Z becomes a-z, every
      other character stays, and so white space stays where it was. */
  function Lower(s: string): (r: string)
    ensures |r| == |s| && LowerCased(r)
    ensures forall k | 0 <= k < |s| :: IsSpace(r[k]) == IsSpace(s[k])
    ensures forall k | 0 <= k < |s| :: !IsUpper(s[k]) ==> r[k] == s[k]
    ensures forall k | 0 <= k < |s| :: IsUpper(s[k]) ==>
              'a' <= r[k] <= 'z' && r[k] as int - 'a' as int == s[k] as int - 'A' as int
  {
    seq(|s|, k requires 0 <= k < |s| => LowerChar(s[k]))
  }

  /** A string without upper-case letters is left as it is. */
  lemma LowerCasedIsFixed(s: string)
    requires LowerCased(s)
    ensures Lower(s) == s
  {
  }

  /** Two strings that agree position by position up to ASCII case. */
  predicate SameUpToCase(s: string, t: string) {
    |s| == |t| && forall k | 0 <= k < |s| :: LowerChar(s[k]) == LowerChar(t[k])
  }

  /** Strings that differ only in case lower-case to the same string. */
  lemma LowerIgnoresCase(s: string, t: string)
    requires SameUpToCase(s, t)
    ensures Lower(s) == Lower(t)
  {
  }

  lemma LowerSlice(s: string, i: nat, j: nat)
    requires i <= j <= |s|
    ensures Lower(s[i..j]) == Lower(s)[i..j]
  {
  }

  lemma {:induction false} TrimStartLower(s: string)
    ensures TrimStart(Lower(s)) == Lower(TrimStart(s))
  {
    var l := Lower(s);
    if |s| > 0 && IsSpace(s[0]) {
      assert IsSpace(l[0]);
      calc {
        TrimStart(l);
        TrimStart(l[1..]);
        { LowerSlice(s, 1, |s|); assert s[1..|s|] == s[1..] && l[1..|s|] == l[1..]; }
        TrimStart(Lower(s[1..]));
        { TrimStartLower(s[1..]); }
        Lower(TrimStart(s[1..]));
      }
    } else {
      assert l == [] || !IsSpace(l[0]);
    }
  }

  lemma {:induction false} TrimEndLower(s: string)
    ensures TrimEnd(Lower(s)) == Lower(TrimEnd(s))
  {
    var l := Lower(s);
    if |s| > 0 && IsSpace(s[|s| - 1]) {
      assert IsSpace(l[|l| - 1]);
      calc {
        TrimEnd(l);
        TrimEnd(l[..|l| - 1]);
        { LowerSlice(s, 0, |s| - 1); assert s[0..|s| - 1] == s[..|s| - 1]; }
        TrimEnd(Lower(s[..|s| - 1]));
        { TrimEndLower(s[..|s| - 1]); }
        Lower(TrimEnd(s[..|s| - 1]));
      }
    } else {
      assert l == [] || !IsSpace(l[|l| - 1]);
    }
  }

  /** Trimming and lower-casing commute, so the order in which the email
      path's two setters run does not change the stored value. */
  lemma TrimLowerCommute(s: string)
    ensures Trim(Lower(s)) == Lower(Trim(s))
  {
    TrimStartLower(s);
    TrimEndLower(TrimStart(s));
  }
}
