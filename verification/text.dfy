/** The string operations the subscribe flow applies to emails and headers:
    .NET `String.Trim()`, `String.ToLowerInvariant()`, `String.IsNullOrEmpty`,
    and the email normalisation built from the first two. */
module Text {
  import opened Wrappers

  /** `Char.IsWhiteSpace`, which `String.Trim()` strips: the space separators
      (U+0020, U+00A0, U+1680, U+2000..U+200A, U+202F, U+205F, U+3000), the line
      and paragraph separators (U+2028, U+2029), U+0009..U+000D and U+0085.
      Dafny characters are Unicode scalar values, so surrogate pairs are not
      modelled; none of them is white space anyway. */
  predicate IsWhiteSpace(c: char)
    ensures IsWhiteSpace(c) <==> c in DotNetWhiteSpace
  {
    || ('\t' <= c <= '\r')
    || c == ' '
    || c == '\U{85}'
    || c == '\U{A0}'
    || c == '\U{1680}'
    || ('\U{2000}' <= c <= '\U{200A}')
    || c == '\U{2028}'
    || c == '\U{2029}'
    || c == '\U{202F}'
    || c == '\U{205F}'
    || c == '\U{3000}'
  }

  /** The white-space characters of .NET, listed one by one. */
  const DotNetWhiteSpace: set<char> := {
    '\t', '\n', '\U{B}', '\U{C}', '\r', ' ', '\U{85}', '\U{A0}', '\U{1680}',
    '\U{2000}', '\U{2001}', '\U{2002}', '\U{2003}', '\U{2004}', '\U{2005}',
    '\U{2006}', '\U{2007}', '\U{2008}', '\U{2009}', '\U{200A}',
    '\U{2028}', '\U{2029}', '\U{202F}', '\U{205F}', '\U{3000}'
  }

  predicate AllWhiteSpace(s: string) {
    forall i :: 0 <= i < |s| ==> IsWhiteSpace(s[i])
  }

  /** Neither end of `s` is white space. */
  predicate IsTrimmed(s: string) {
    |s| == 0 || (!IsWhiteSpace(s[0]) && !IsWhiteSpace(s[|s| - 1]))
  }

  /** `String.IsNullOrEmpty`. A string of white space is neither. */
  predicate IsNullOrEmpty(s: Option<string>)
    ensures IsNullOrEmpty(s) <==> s == None || s == Some("")
  {
    s.None? || |s.value| == 0
  }

  /** `String.TrimStart()`: the leading white space removed. */
  function TrimStart(s: string): (r: string)
    ensures |r| <= |s|
    ensures |r| == 0 || !IsWhiteSpace(r[0])
  {
    if |s| > 0 && IsWhiteSpace(s[0]) then TrimStart(s[1..]) else s
  }

  /** `String.TrimEnd()`: the trailing white space removed. */
  function TrimEnd(s: string): (r: string)
    ensures |r| <= |s|
    ensures |r| == 0 || !IsWhiteSpace(r[|r| - 1])
    ensures |r| > 0 ==> r[0] == s[0]
  {
    if |s| > 0 && IsWhiteSpace(s[|s| - 1]) then TrimEnd(s[..|s| - 1]) else s
  }

  /** What `TrimStart` removes is white space, and what it keeps is the rest. */
  lemma {:induction false} TrimStartSplit(s: string) returns (p: string)
    ensures s == p + TrimStart(s)
    ensures AllWhiteSpace(p)
    decreases |s|
  {
    if |s| > 0 && IsWhiteSpace(s[0]) {
      var p' := TrimStartSplit(s[1..]);
      p := [s[0]] + p';
      assert s == [s[0]] + s[1..];
    } else {
      p := [];
    }
  }

  /** What `TrimEnd` removes is white space, and what it keeps is the rest. */
  lemma {:induction false} TrimEndSplit(s: string) returns (q: string)
    ensures s == TrimEnd(s) + q
    ensures AllWhiteSpace(q)
    decreases |s|
  {
    if |s| > 0 && IsWhiteSpace(s[|s| - 1]) {
      var q' := TrimEndSplit(s[..|s| - 1]);
      q := q' + [s[|s| - 1]];
      assert s == s[..|s| - 1] + [s[|s| - 1]];
    } else {
      q := [];
    }
  }

  /** `String.Trim()`: white space removed from both ends. What is removed
      and what is kept is stated by `TrimSplit` and `TrimUnique`. */
  function Trim(s: string): (r: string)
    ensures IsTrimmed(r)
    ensures |r| <= |s|
  {
    TrimEnd(TrimStart(s))
  }

  /** `Trim(s)` is a slice of `s` with only white space on either side of it. */
  lemma TrimSplit(s: string) returns (p: string, q: string)
    ensures s == p + Trim(s) + q
    ensures AllWhiteSpace(p) && AllWhiteSpace(q)
  {
    p := TrimStartSplit(s);
    q := TrimEndSplit(TrimStart(s));
  }

  lemma {:induction false} TrimStartSkips(p: string, t: string)
    requires AllWhiteSpace(p)
    requires |t| == 0 || !IsWhiteSpace(t[0])
    ensures TrimStart(p + t) == t
    decreases |p|
  {
    if |p| == 0 {
      assert p + t == t;
    } else {
      assert (p + t)[1..] == p[1..] + t;
      TrimStartSkips(p[1..], t);
    }
  }

  lemma {:induction false} TrimEndSkips(t: string, q: string)
    requires AllWhiteSpace(q)
    requires |t| == 0 || !IsWhiteSpace(t[|t| - 1])
    ensures TrimEnd(t + q) == t
    decreases |q|
  {
    if |q| == 0 {
      assert t + q == t;
    } else {
      assert (t + q)[..|t + q| - 1] == t + q[..|q| - 1];
      TrimEndSkips(t, q[..|q| - 1]);
    }
  }

  /** The converse of `Trim`'s contract: any split of `s` into white space,
      a trimmed middle and white space has `Trim(s)` as its middle. */
  lemma TrimUnique(s: string, p: string, m: string, q: string)
    requires s == p + m + q
    requires AllWhiteSpace(p) && AllWhiteSpace(q) && IsTrimmed(m)
    ensures Trim(s) == m
  {
    if |m| == 0 {
      assert AllWhiteSpace(s) by {
        assert s == p + q;
        forall i | 0 <= i < |s| ensures IsWhiteSpace(s[i]) {
          if i < |p| { assert s[i] == p[i]; } else { assert s[i] == q[i - |p|]; }
        }
      }
      TrimStartSkips(s, []);
      assert s + [] == s;
    } else {
      assert s == p + (m + q);
      TrimStartSkips(p, m + q);
      TrimEndSkips(m, q);
    }
  }

  /** `Char.ToLowerInvariant` restricted to ASCII: A..Z become a..z, every other
      character is kept. .NET also lowercases non-ASCII letters; that is not
      modelled. */
  function ToLowerChar(c: char): char {
    if 'A' <= c <= 'Z' then (c as int - 'A' as int + 'a' as int) as char else c
  }

  predicate IsUpperAscii(c: char) {
    'A' <= c <= 'Z'
  }

  predicate HasNoUpperAscii(s: string) {
    forall i :: 0 <= i < |s| ==> !IsUpperAscii(s[i])
  }

  /** `String.ToLowerInvariant()`, ASCII letters only (see `ToLowerChar`). */
  function ToLowerInvariant(s: string): (r: string)
    ensures |r| == |s|
    ensures forall i :: 0 <= i < |s| ==> r[i] == ToLowerChar(s[i])
    ensures HasNoUpperAscii(r)
  {
    if |s| == 0 then [] else [ToLowerChar(s[0])] + ToLowerInvariant(s[1..])
  }

  lemma ToLowerConcat(a: string, b: string)
    ensures ToLowerInvariant(a + b) == ToLowerInvariant(a) + ToLowerInvariant(b)
  {
    var l, r := ToLowerInvariant(a + b), ToLowerInvariant(a) + ToLowerInvariant(b);
    assert |l| == |r|;
    forall i | 0 <= i < |l| ensures l[i] == r[i] {
      if i < |a| { assert (a + b)[i] == a[i]; } else { assert (a + b)[i] == b[i - |a|]; }
    }
  }

  /** Lowercasing keeps white space where it is and adds none. */
  lemma ToLowerKeepsWhiteSpace(s: string)
    ensures AllWhiteSpace(s) ==> AllWhiteSpace(ToLowerInvariant(s))
    ensures IsTrimmed(s) ==> IsTrimmed(ToLowerInvariant(s))
  {
  }

  lemma ToLowerOfLower(s: string)
    requires HasNoUpperAscii(s)
    ensures ToLowerInvariant(s) == s
  {
  }

  /** Trimming and lowercasing commute: the order the controller applies them
      in does not matter. */
  lemma TrimToLowerCommute(s: string)
    ensures Trim(ToLowerInvariant(s)) == ToLowerInvariant(Trim(s))
  {
    var m := Trim(s);
    var p, q := TrimSplit(s);
    ToLowerConcat(p + m, q);
    ToLowerConcat(p, m);
    ToLowerKeepsWhiteSpace(p);
    ToLowerKeepsWhiteSpace(m);
    ToLowerKeepsWhiteSpace(q);
    TrimUnique(ToLowerInvariant(s), ToLowerInvariant(p), ToLowerInvariant(m), ToLowerInvariant(q));
  }

  /** The form under which an email is stored and looked up: trimmed and
      without upper-case letters. */
  predicate IsNormalized(s: string) {
    IsTrimmed(s) && HasNoUpperAscii(s)
  }

  /** `email.Trim().ToLowerInvariant()`. */
  function NormalizeEmail(email: string): (r: string)
    ensures IsNormalized(r)
  {
    var r := ToLowerInvariant(Trim(email));
    ToLowerKeepsWhiteSpace(Trim(email));
    r
  }

  /** The normalised emails are exactly the fixed points of `NormalizeEmail`. */
  lemma NormalizedIffFixedPoint(s: string)
    ensures IsNormalized(s) <==> NormalizeEmail(s) == s
  {
    if IsNormalized(s) {
      TrimUnique(s, [], s, []);
      assert [] + s + [] == s;
      ToLowerOfLower(s);
    }
  }

  lemma NormalizeEmailIdempotent(email: string)
    ensures NormalizeEmail(NormalizeEmail(email)) == NormalizeEmail(email)
  {
    NormalizedIffFixedPoint(NormalizeEmail(email));
  }

  /** White space around an email does not change its normal form. */
  lemma NormalizeIgnoresSurroundingWhiteSpace(p: string, email: string, q: string)
    requires AllWhiteSpace(p) && AllWhiteSpace(q)
    ensures NormalizeEmail(p + email + q) == NormalizeEmail(email)
  {
    var m := Trim(email);
    var a, b := TrimSplit(email);
    Regroup(p, a, m, b, q);
    WhiteSpaceConcat(p, a);
    WhiteSpaceConcat(b, q);
    TrimUnique(p + email + q, p + a, m, b + q);
  }

  lemma Regroup(p: string, a: string, m: string, b: string, q: string)
    ensures p + (a + m + b) + q == (p + a) + m + (b + q)
  {
  }

  lemma WhiteSpaceConcat(a: string, b: string)
    requires AllWhiteSpace(a) && AllWhiteSpace(b)
    ensures AllWhiteSpace(a + b)
  {
    forall k | 0 <= k < |a + b| ensures IsWhiteSpace((a + b)[k]) {
      if k < |a| { assert (a + b)[k] == a[k]; } else { assert (a + b)[k] == b[k - |a|]; }
    }
  }

  /** Emails that differ only in the case of ASCII letters have the same
      normal form. */
  lemma NormalizeIgnoresCase(a: string, b: string)
    requires ToLowerInvariant(a) == ToLowerInvariant(b)
    ensures NormalizeEmail(a) == NormalizeEmail(b)
  {
    TrimToLowerCommute(a);
    TrimToLowerCommute(b);
  }
}
