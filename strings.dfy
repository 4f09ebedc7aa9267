/** Character-level helpers the merger relies on: Rust's `str::trim`, the
    blank-line test and `str::contains("-->")`. */
module Strings {

  /** The characters with the Unicode White_Space property. */
  const SpaceChars: set<char> := {
    '\t', '\n', '\U{000B}', '\U{000C}', '\r', ' ', '\U{0085}', '\U{00A0}', '\U{1680}',
    '\U{2000}', '\U{2001}', '\U{2002}', '\U{2003}', '\U{2004}', '\U{2005}', '\U{2006}',
    '\U{2007}', '\U{2008}', '\U{2009}', '\U{200A}', '\U{2028}', '\U{2029}', '\U{202F}',
    '\U{205F}', '\U{3000}'
  }

  /** Rust's `char::is_whitespace`. */
  predicate IsSpace(c: char) {
    c in SpaceChars
  }

  predicate AllSpace(s: string) {
    forall i :: 0 <= i < |s| ==> IsSpace(s[i])
  }

  /** Neither end of `t` is whitespace: what `trim` returns. */
  predicate IsTrimmed(t: string) {
    t == [] || (!IsSpace(t[0]) && !IsSpace(t[|t| - 1]))
  }

  /** `str::trim`: drops whitespace from both ends. */
  function Trim(s: string): (r: string)
    ensures IsTrimmed(r) && |r| <= |s|
    decreases |s|
  {
    if s == [] then []
    else if IsSpace(s[0]) then Trim(s[1..])
    else if IsSpace(s[|s| - 1]) then Trim(s[..|s| - 1])
    else s
  }

  /** What `trim` returns is the slice `s[a..a + |Trim(s)|]`, with nothing but
      whitespace on either side of it. */
  lemma {:induction false} TrimSlice(s: string) returns (a: nat)
    ensures a + |Trim(s)| <= |s| && Trim(s) == s[a..a + |Trim(s)|]
    ensures forall k :: 0 <= k < a ==> IsSpace(s[k])
    ensures forall k :: a + |Trim(s)| <= k < |s| ==> IsSpace(s[k])
    decreases |s|
  {
    var r := Trim(s);
    if s == [] {
      a := 0;
    } else if IsSpace(s[0]) {
      var t := s[1..];
      var a' := TrimSlice(t);
      assert r == Trim(t);
      a := a' + 1;
      assert t[a'..a' + |r|] == s[a..a + |r|];
      assert forall k :: 1 <= k < |s| ==> s[k] == t[k - 1];
    } else if IsSpace(s[|s| - 1]) {
      var t := s[..|s| - 1];
      a := TrimSlice(t);
      assert r == Trim(t);
      assert t[a..a + |r|] == s[a..a + |r|];
      assert forall k :: 0 <= k < |t| ==> s[k] == t[k];
    } else {
      a := 0;
      assert s[0..|s|] == s;
    }
  }

  /** `line.trim().is_empty()`: the line is nothing but whitespace. */
  predicate IsBlank(line: string) {
    AllSpace(line)
  }

  lemma BlankIsTrimEmpty(line: string)
    ensures IsBlank(line) <==> Trim(line) == []
  {
    var a := TrimSlice(line);
  }

  lemma {:induction false} TrimOfPaddedLeft(w: string, x: string)
    requires AllSpace(w)
    ensures Trim(w + x) == Trim(x)
  {
    if w != [] {
      assert (w + x)[1..] == w[1..] + x;
      TrimOfPaddedLeft(w[1..], x);
    } else {
      assert w + x == x;
    }
  }

  lemma {:induction false} TrimOfPaddedRight(t: string, w: string)
    requires AllSpace(w) && IsTrimmed(t)
    ensures Trim(t + w) == t
  {
    if w == [] {
      assert t + w == t;
      if t != [] {
        assert Trim(t) == t;
      }
    } else if t == [] {
      assert t + w == w;
      assert Trim(w) == Trim(w[1..]);
      TrimOfPaddedRight(t, w[1..]);
      assert t + w[1..] == w[1..];
    } else {
      assert (t + w)[..|t + w| - 1] == t + w[..|w| - 1];
      TrimOfPaddedRight(t, w[..|w| - 1]);
    }
  }

  /** Trimming removes exactly the whitespace padding around a trimmed text. */
  lemma TrimOfPadded(w1: string, t: string, w2: string)
    requires AllSpace(w1) && AllSpace(w2) && IsTrimmed(t)
    ensures Trim(w1 + t + w2) == t
  {
    assert w1 + t + w2 == w1 + (t + w2);
    TrimOfPaddedLeft(w1, t + w2);
    TrimOfPaddedRight(t, w2);
  }

  /** `trim` is idempotent. */
  lemma TrimIdempotent(s: string)
    ensures Trim(Trim(s)) == Trim(s)
  {
    TrimOfPadded([], Trim(s), []);
    assert [] + Trim(s) + [] == Trim(s);
  }

  /** Every character between two non-space characters of `s` survives `trim`. */
  lemma TrimKeepsInterior(s: string, i: nat, k: nat, j: nat)
    requires i <= k <= j < |s|
    requires !IsSpace(s[i]) && !IsSpace(s[j])
    ensures s[k] in Trim(s)
  {
    var a := TrimSlice(s);
    var r := Trim(s);
    assert r[k - a] == s[k];
  }

  /** `line.contains("-->")`. */
  predicate ContainsArrow(s: string) {
    |s| >= 3 && (s[..3] == "-->" || ContainsArrow(s[1..]))
  }

  /** Appending a character other than `>` cannot complete an arrow. */
  lemma {:induction false} ContainsArrowAppend(s: string, c: char)
    requires c != '>'
    ensures ContainsArrow(s + [c]) == ContainsArrow(s)
  {
    var t := s + [c];
    if |s| >= 2 {
      assert forall k :: 0 <= k < |t[1..]| ==> t[1..][k] == (s[1..] + [c])[k];
      assert t[1..] == s[1..] + [c];
    }
    if |s| >= 3 {
      assert t[..3] == s[..3];
      ContainsArrowAppend(s[1..], c);
    } else if |s| == 2 {
      assert t[..3][2] == c;
    }
  }

  /** A line holding an arrow holds a `-`, so it is not blank. */
  lemma {:induction false} ArrowHasDash(s: string)
    requires ContainsArrow(s)
    ensures '-' in s && !AllSpace(s)
  {
    if s[..3] != "-->" {
      ArrowHasDash(s[1..]);
      var i :| 0 <= i < |s[1..]| && s[1..][i] == '-';
      assert s[i + 1] == '-';
    } else {
      assert s[0] == '-';
    }
  }
}
