/**
 The string primitives the scanners rely on: JavaScript's `trim`, the ASCII case folding
 behind a wildcard-free `ILIKE`, `includes`, and the `replace(/_/g, ' ').toUpperCase()`
 used to label an unknown partition.
 */
module Text {

  /** The code points JavaScript's `trim` strips: WhiteSpace and LineTerminator. */
  predicate IsSpace(c: char) {
    || c == '\t' || c == '\n' || c == '\U{000B}' || c == '\U{000C}' || c == '\r' || c == ' '
    || c == '\U{00A0}' || c == '\U{1680}' || ('\U{2000}' <= c <= '\U{200A}')
    || c == '\U{2028}' || c == '\U{2029}' || c == '\U{202F}' || c == '\U{205F}'
    || c == '\U{3000}' || c == '\U{FEFF}'
  }

  predicate AllSpace(s: string) {
    forall i :: 0 <= i < |s| ==> IsSpace(s[i])
  }

  /** Strips leading white space. */
  function TrimStart(s: string): string {
    if |s| > 0 && IsSpace(s[0]) then TrimStart(s[1..]) else s
  }

  /** Strips trailing white space. */
  function TrimEnd(s: string): string {
    if |s| > 0 && IsSpace(s[|s| - 1]) then TrimEnd(s[..|s| - 1]) else s
  }

  /** What `TrimStart` keeps is a suffix of `s`; what it drops is white; what it keeps starts on a non-white character. */
  lemma {:induction false} TrimStartSpec(s: string)
    ensures |TrimStart(s)| <= |s| && TrimStart(s) == s[|s| - |TrimStart(s)|..]
    ensures AllSpace(s[..|s| - |TrimStart(s)|])
    ensures TrimStart(s) != [] ==> !IsSpace(TrimStart(s)[0])
    decreases |s|
  {
    if |s| > 0 && IsSpace(s[0]) {
      TrimStartSpec(s[1..]);
      var r := TrimStart(s[1..]);
      assert s[..|s| - |r|] == [s[0]] + s[1..][..|s| - 1 - |r|];
    }
  }

  /** What `TrimEnd` keeps is a prefix of `s`; what it drops is white; what it keeps ends on a non-white character. */
  lemma {:induction false} TrimEndSpec(s: string)
    ensures |TrimEnd(s)| <= |s| && TrimEnd(s) == s[..|TrimEnd(s)|]
    ensures AllSpace(s[|TrimEnd(s)|..])
    ensures TrimEnd(s) != [] ==> !IsSpace(TrimEnd(s)[|TrimEnd(s)| - 1])
    decreases |s|
  {
    if |s| > 0 && IsSpace(s[|s| - 1]) {
      TrimEndSpec(s[..|s| - 1]);
      var r := TrimEnd(s[..|s| - 1]);
      assert s[|r|..] == s[..|s| - 1][|r|..] + [s[|s| - 1]];
    }
  }

  /** JavaScript's `String.prototype.trim`. */
  function Trim(s: string): string {
    TrimStart(TrimEnd(s))
  }

  /**
   What `trim` returns: no longer than its input, starting and ending on a non-white
   character, and empty exactly when the input was all white space.
   */
  lemma TrimSpec(s: string)
    ensures |Trim(s)| <= |s|
    ensures Trim(s) != [] ==> !IsSpace(Trim(s)[0]) && !IsSpace(Trim(s)[|Trim(s)| - 1])
    ensures Trim(s) == [] <==> AllSpace(s)
  {
    var e := TrimEnd(s);
    TrimEndSpec(s);
    TrimEndEmpty(s);
    var r := TrimStart(e);
    TrimStartSpec(e);
    assert r != [] ==> r[|r| - 1] == e[|e| - 1];
    assert e != [] ==> r != [];
  }

  /** Trimming the end leaves nothing exactly when everything is white. */
  lemma {:induction false} TrimEndEmpty(s: string)
    ensures TrimEnd(s) == [] <==> AllSpace(s)
    decreases |s|
  {
    if |s| > 0 && IsSpace(s[|s| - 1]) {
      TrimEndEmpty(s[..|s| - 1]);
      assert s == s[..|s| - 1] + [s[|s| - 1]];
    }
  }

  lemma {:induction false} TrimStartSkipsSpace(w: string, x: string)
    requires AllSpace(w)
    ensures TrimStart(w + x) == TrimStart(x)
    decreases |w|
  {
    if w == [] {
      assert w + x == x;
    } else {
      assert (w + x)[1..] == w[1..] + x;
      TrimStartSkipsSpace(w[1..], x);
    }
  }

  lemma {:induction false} TrimEndSkipsSpace(x: string, w: string)
    requires AllSpace(w)
    ensures TrimEnd(x + w) == TrimEnd(x)
    decreases |w|
  {
    if w == [] {
      assert x + w == x;
    } else {
      assert (x + w)[..|x + w| - 1] == x + w[..|w| - 1];
      TrimEndSkipsSpace(x, w[..|w| - 1]);
    }
  }

  /** Leading white space survives TrimEnd unless everything is white. */
  lemma {:induction false} TrimEndKeepsLead(w: string, x: string)
    requires AllSpace(w)
    ensures TrimEnd(x) != [] ==> TrimEnd(w + x) == w + TrimEnd(x)
    ensures TrimEnd(x) == [] ==> TrimEnd(w + x) == []
    decreases |x|
  {
    if x == [] {
      assert w + x == w;
      TrimEndSkipsSpace([], w);
      assert [] + w == w;
    } else if IsSpace(x[|x| - 1]) {
      assert (w + x)[..|w + x| - 1] == w + x[..|x| - 1];
      TrimEndKeepsLead(w, x[..|x| - 1]);
    }
  }

  /** Surrounding white space never changes what a code trims to. */
  lemma TrimIgnoresSurroundingSpace(w1: string, s: string, w2: string)
    requires AllSpace(w1) && AllSpace(w2)
    ensures Trim(w1 + s + w2) == Trim(s)
  {
    TrimEndSkipsSpace(w1 + s, w2);
    TrimEndKeepsLead(w1, s);
    if TrimEnd(s) != [] {
      TrimStartSkipsSpace(w1, TrimEnd(s));
    }
  }

  /** ASCII lower-casing of one character. */
  function LowerChar(c: char): char {
    if 'A' <= c <= 'Z' then (c as int + 32) as char else c
  }

  /** ASCII upper-casing of one character. */
  function UpperChar(c: char): char {
    if 'a' <= c <= 'z' then (c as int - 32) as char else c
  }

  predicate IsUpperAscii(c: char) {
    'A' <= c <= 'Z'
  }

  predicate IsLowerAscii(c: char) {
    'a' <= c <= 'z'
  }

  /** The case folding a wildcard-free `ILIKE` compares by: no upper-case letter survives, nothing else moves. */
  function FoldCase(s: string): (r: string)
  {
    seq(|s|, i requires 0 <= i < |s| => LowerChar(s[i]))
  }

  /**
   Folding keeps the length, leaves no upper-case ASCII letter, moves no other character, and
   keeps every letter's identity: a folded character upper-cases to what the original does.
   */
  lemma FoldCaseSpec(s: string)
    ensures |FoldCase(s)| == |s|
    ensures forall i :: 0 <= i < |s| ==> UpperChar(FoldCase(s)[i]) == UpperChar(s[i])
    ensures forall i :: 0 <= i < |s| ==> !IsUpperAscii(FoldCase(s)[i])
    ensures forall i :: 0 <= i < |s| && !IsUpperAscii(s[i]) ==> FoldCase(s)[i] == s[i]
  {
  }

  /** `toUpperCase`, restricted to ASCII letters. */
  function UpperAscii(s: string): (r: string)
  {
    seq(|s|, i requires 0 <= i < |s| => UpperChar(s[i]))
  }

  /** `ILIKE` with a pattern that holds no `%` or `_` wildcard. */
  predicate EqualsIgnoringCase(a: string, b: string) {
    FoldCase(a) == FoldCase(b)
  }

  /** Upper-casing a code does not change what it matches. */
  lemma UpperMatchesOriginal(s: string)
    ensures EqualsIgnoringCase(UpperAscii(s), s)
  {
    var u := UpperAscii(s);
    forall i | 0 <= i < |s|
      ensures FoldCase(u)[i] == FoldCase(s)[i]
    {
      assert u[i] == UpperChar(s[i]);
    }
  }

  /** `replace(/_/g, ' ')`. */
  function UnderscoresToSpaces(s: string): (r: string)
  {
    seq(|s|, i requires 0 <= i < |s| => if s[i] == '_' then ' ' else s[i])
  }

  /** `part` occurs in `s` starting at index `i`. */
  predicate OccursAt(s: string, part: string, i: int) {
    0 <= i && i + |part| <= |s| && s[i..i + |part|] == part
  }

  /** JavaScript's `String.prototype.includes`. */
  function Contains(s: string, part: string): bool
    decreases |s|
  {
    if |part| <= |s| && s[..|part|] == part then true
    else if |s| == 0 then false
    else Contains(s[1..], part)
  }

  /** `includes` holds exactly when the part occurs at some index. */
  lemma {:induction false} ContainsSpec(s: string, part: string)
    ensures Contains(s, part) <==> exists i :: OccursAt(s, part, i)
    decreases |s|
  {
    if |part| <= |s| && s[..|part|] == part {
      assert OccursAt(s, part, 0);
    } else if |s| == 0 {
      assert forall i :: !OccursAt(s, part, i);
    } else {
      ContainsSpec(s[1..], part);
      if Contains(s[1..], part) {
        var i :| OccursAt(s[1..], part, i);
        assert s[i + 1..i + 1 + |part|] == s[1..][i..i + |part|];
        assert OccursAt(s, part, i + 1);
      }
      if exists i :: OccursAt(s, part, i) {
        var i :| OccursAt(s, part, i);
        assert i != 0;
        assert s[1..][i - 1..i - 1 + |part|] == s[i..i + |part|];
        assert OccursAt(s[1..], part, i - 1);
      }
    }
  }
}
