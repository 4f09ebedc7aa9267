/** `get_clue_number` (src/main.rs:31-37): the ordering key of a timing line.
    It is the decimal number spelled by the text before the first `" --> "`
    once every `:` and `.` is deleted; it is not a time in any unit, and it
    orders two timing lines chronologically only when both spell their start
    with the same number of digits. */
module TimeKeys {
  import opened Types
  import opened Strings

  const Separator: string := " --> "

  predicate StartsWithSeparator(s: string) {
    |s| >= |Separator| && s[..|Separator|] == Separator
  }

  /** `clue.split(" --> ").next()`: the text before the first separator, or
      the whole line when there is none (the `unwrap` there never fails). */
  function StartField(s: string): (r: string) {
    if s == [] || StartsWithSeparator(s) then [] else [s[0]] + StartField(s[1..])
  }

  /** The start field is the longest prefix in which no separator begins,
      and either it is the whole line or a separator follows it. */
  lemma {:induction false} StartFieldSpec(s: string)
    ensures var r := StartField(s);
      && |r| <= |s| && r == s[..|r|]
      && (r == s || StartsWithSeparator(s[|r|..]))
      && forall j :: 0 <= j < |r| ==> !StartsWithSeparator(s[j..])
  {
    if s != [] && !StartsWithSeparator(s) {
      var r, r1 := StartField(s), StartField(s[1..]);
      StartFieldSpec(s[1..]);
      assert r == [s[0]] + r1;
      assert r == s[..|r|] by {
        assert r1 == s[1..][..|r1|];
        assert forall i :: 0 < i < |r| ==> r[i] == r1[i - 1] == s[i];
      }
      assert s[|r|..] == s[1..][|r1|..];
      forall j | 0 <= j < |r|
        ensures !StartsWithSeparator(s[j..])
      {
        if j > 0 {
          assert s[j..] == s[1..][j - 1..];
        }
      }
    }
  }

  predicate IsSeparatorChar(c: char) {
    c == ':' || c == '.'
  }

  /** `.replace(":", "").replace(".", "")`. */
  function StripSeparators(s: string): (r: string) {
    if s == [] then
      []
    else
      (if IsSeparatorChar(s[0]) then [] else [s[0]]) + StripSeparators(s[1..])
  }

  /** No `:` or `.` survives. */
  lemma {:induction false} StripSpec(s: string)
    ensures |StripSeparators(s)| <= |s|
    ensures forall i :: 0 <= i < |StripSeparators(s)| ==> !IsSeparatorChar(StripSeparators(s)[i])
  {
    if s != [] {
      StripSpec(s[1..]);
    }
  }

  /** Stripping distributes over concatenation. */
  lemma {:induction false} StripConcat(a: string, b: string)
    ensures StripSeparators(a + b) == StripSeparators(a) + StripSeparators(b)
  {
    if a != [] {
      assert (a + b)[1..] == a[1..] + b;
      StripConcat(a[1..], b);
    } else {
      assert a + b == b;
    }
  }

  lemma {:induction false} StripIdentity(s: string)
    requires forall i :: 0 <= i < |s| ==> !IsSeparatorChar(s[i])
    ensures StripSeparators(s) == s
  {
    if s != [] {
      StripIdentity(s[1..]);
    }
  }

  /** Every other character survives. */
  lemma {:induction false} StripKeeps(s: string, i: nat)
    requires i < |s| && !IsSeparatorChar(s[i])
    ensures s[i] in StripSeparators(s)
  {
    if i > 0 {
      StripKeeps(s[1..], i - 1);
    }
  }

  predicate IsDigit(c: char) {
    '0' <= c <= '9'
  }

  predicate AllDigits(s: string) {
    forall i :: 0 <= i < |s| ==> IsDigit(s[i])
  }

  function DigitValue(c: char): nat
    requires IsDigit(c)
  {
    (c as int) - ('0' as int)
  }

  /** The number a string of decimal digits spells, most significant first. */
  function Value(s: string): nat
    requires AllDigits(s)
  {
    if s == [] then 0 else 10 * Value(s[..|s| - 1]) + DigitValue(s[|s| - 1])
  }

  /** The value of a run of digits, read from the last one back; `None`
      when some character is not a digit. */
  function Digits(s: string): Option<nat>
    decreases |s|
  {
    if s == [] then Some(0)
    else if !IsDigit(s[|s| - 1]) then None
    else match Digits(s[..|s| - 1])
      case None => None
      case Some(v) => Some(10 * v + DigitValue(s[|s| - 1]))
  }

  lemma {:induction false} DigitsSpec(s: string)
    ensures Digits(s).Some? <==> AllDigits(s)
    ensures AllDigits(s) ==> Digits(s) == Some(Value(s))
    decreases |s|
  {
    if s != [] {
      var init := s[..|s| - 1];
      DigitsSpec(init);
      assert forall i :: 0 <= i < |init| ==> init[i] == s[i];
    }
  }

  /** `str::parse::<usize>`: an optional `+`, then at least one ASCII digit
      and nothing else. The width of `usize` is not modelled. */
  function ParseUsize(s: string): (r: Option<nat>) {
    var digits := if s != [] && s[0] == '+' then s[1..] else s;
    if digits == [] then None else Digits(digits)
  }

  /** The parse succeeds exactly on an optional `+` followed by one digit or
      more, and then yields the number those digits spell. */
  lemma ParseUsizeSpec(s: string)
    ensures ParseUsize(s).Some? <==>
      s != [] && (IsDigit(s[0]) || (s[0] == '+' && |s| > 1)) && AllDigits(s[1..])
    ensures ParseUsize(s).Some? && s[0] != '+' ==> AllDigits(s) && ParseUsize(s).value == Value(s)
    ensures ParseUsize(s).Some? && s[0] == '+' ==> ParseUsize(s).value == Value(s[1..])
  {
    if s != [] {
      DigitsSpec(s);
      DigitsSpec(s[1..]);
      assert forall i :: 1 <= i < |s| ==> s[1..][i - 1] == s[i];
    }
  }

  /** `get_clue_number`; `None` where the source's second `unwrap` panics. */
  function TimeKey(clue: string): (key: Option<nat>) {
    ParseUsize(StripSeparators(StartField(clue)))
  }

  /** The decimal spelling of `n`, without leading zeros. */
  function ShowNat(n: nat): (r: string)
    ensures r != [] && AllDigits(r)
  {
    var d := ['0' + (n % 10) as char];
    if n < 10 then d else ShowNat(n / 10) + d
  }

  lemma {:induction false} ValueOfShowNat(n: nat)
    ensures Value(ShowNat(n)) == n
  {
    if n >= 10 {
      var p := ShowNat(n / 10);
      var s := ShowNat(n);
      assert s[..|s| - 1] == p;
      ValueOfShowNat(n / 10);
    }
  }

  function Zeros(k: nat): string {
    if k == 0 then [] else "0" + Zeros(k - 1)
  }

  /** A leading zero does not change the value. */
  lemma {:induction false} ValueLeadingZero(s: string)
    requires AllDigits(s)
    ensures AllDigits("0" + s) && Value("0" + s) == Value(s)
  {
    if s != [] {
      assert ("0" + s)[..|"0" + s| - 1] == "0" + s[..|s| - 1];
      ValueLeadingZero(s[..|s| - 1]);
    }
  }

  /** Nor do any number of them: `parse` consumes leading zeros. */
  lemma {:induction false} ValueLeadingZeros(k: nat, s: string)
    requires AllDigits(s)
    ensures AllDigits(Zeros(k) + s) && Value(Zeros(k) + s) == Value(s)
  {
    if k > 0 {
      ValueLeadingZeros(k - 1, s);
      ValueLeadingZero(Zeros(k - 1) + s);
      assert Zeros(k) + s == "0" + (Zeros(k - 1) + s);
    } else {
      assert Zeros(k) + s == s;
    }
  }

  /** The key of a line that begins with a decimal number and a separator is
      that number: `parse` inverts `ShowNat`, whatever follows the separator. */
  lemma TimeKeyOfDecimal(n: nat, rest: string)
    ensures TimeKey(ShowNat(n) + Separator + rest) == Some(n)
  {
    var p := ShowNat(n);
    StartFieldBeforeSeparator(p, rest);
    StripIdentity(p);
    ValueOfShowNat(n);
    ParseUsizeSpec(p);
    assert ParseUsize(p) == Some(n);
  }

  lemma {:induction false} StartFieldBeforeSeparator(p: string, rest: string)
    requires forall i :: 0 <= i < |p| ==> p[i] != ' '
    ensures StartField(p + Separator + rest) == p
  {
    var s := p + Separator + rest;
    if p == [] {
      assert s[..|Separator|] == Separator;
    } else {
      assert s[0] != ' ';
      assert s[1..] == p[1..] + Separator + rest;
      StartFieldBeforeSeparator(p[1..], rest);
    }
  }

  /** The worked example of a WebVTT timing line: the key of
      `00:00:01.000 --> 00:00:02.000` is 1000 (the leading zeros vanish). */
  lemma TimeKeyExample(start: string, end: string)
    requires start == "00:00:01.000" && end == "00:00:02.000"
    ensures TimeKey(start + Separator + end) == Some(1000)
  {
    TimeKeyOfStart(start, end);
    StartExample(start);
  }

  lemma StartExample(start: string)
    requires start == "00:00:01.000"
    ensures ParseUsize(StripSeparators(start)) == Some(1000)
  {
    var zz, z1, zzz := "00", "01", "000";
    assert start == zz + ([':'] + (zz + ([':'] + (z1 + (['.'] + zzz)))));
    StripClock(zz, zz, z1, zzz);
    assert zz + (zz + (z1 + zzz)) == "000001000";
    ValueExample();
  }

  /** When the start field has no space, the key is that field's digits. */
  lemma TimeKeyOfStart(start: string, rest: string)
    requires forall i :: 0 <= i < |start| ==> start[i] != ' '
    ensures TimeKey(start + Separator + rest) == ParseUsize(StripSeparators(start))
  {
    StartFieldBeforeSeparator(start, rest);
  }

  lemma StripCons(c: char, s: string)
    ensures StripSeparators([c] + s) == (if IsSeparatorChar(c) then [] else [c]) + StripSeparators(s)
  {
    assert ([c] + s)[1..] == s;
  }

  /** Digits, a separator, then anything: the separator goes. */
  lemma StripAround(d: string, c: char, rest: string)
    requires StripSeparators(d) == d && IsSeparatorChar(c)
    ensures StripSeparators(d + ([c] + rest)) == d + StripSeparators(rest)
  {
    StripCons(c, rest);
    StripConcat(d, [c] + rest);
  }

  /** A clock `h:m:s.f` loses its colons and its dot, and only those. */
  lemma StripClock(h: string, m: string, sec: string, f: string)
    requires AllDigits(h) && AllDigits(m) && AllDigits(sec) && AllDigits(f)
    ensures StripSeparators(h + ([':'] + (m + ([':'] + (sec + (['.'] + f))))))
      == h + (m + (sec + f))
  {
    StripIdentity(h);
    StripIdentity(m);
    StripIdentity(sec);
    StripIdentity(f);
    StripFields(h, m, sec, f);
  }

  lemma StripFields(h: string, m: string, sec: string, f: string)
    requires StripSeparators(h) == h && StripSeparators(m) == m
    requires StripSeparators(sec) == sec && StripSeparators(f) == f
    ensures StripSeparators(h + ([':'] + (m + ([':'] + (sec + (['.'] + f))))))
      == h + (m + (sec + f))
  {
    var x1 := sec + (['.'] + f);
    StripAround(sec, '.', f);
    var x2 := m + ([':'] + x1);
    StripAround(m, ':', x1);
    StripAround(h, ':', x2);
  }

  lemma ValueExample()
    ensures ParseUsize("000001000") == Some(1000)
  {
    var z := "1000";
    assert Value("1") == 1;
    assert "10"[..1] == "1";
    assert Value("10") == 10;
    assert "100"[..2] == "10";
    assert Value("100") == 100;
    assert z[..3] == "100";
    assert Value(z) == 1000;
    ValueLeadingZeros(5, z);
    assert Zeros(5) + z == "000001000";
    ParseUsizeSpec("000001000");
  }

  /** Nothing before the separator: the empty string does not parse. */
  lemma EmptyStartFails(rest: string)
    ensures TimeKey(Separator + rest) == None
  {
    assert (Separator + rest)[..|Separator|] == Separator;
  }

  /** An arrow without the surrounding spaces (`00:01-->00:02`) is not a
      separator, so the `-` stays in the number and the parse fails. */
  lemma UnspacedArrowFails(s: string)
    requires ContainsArrow(s)
    requires StartField(s) == s  // no `" --> "` anywhere in `s`
    ensures TimeKey(s) == None
  {
    ArrowHasDash(s);
    var k :| 0 <= k < |s| && s[k] == '-';
    StripKeeps(s, k);
    var r := StripSeparators(s);
    var i :| 0 <= i < |r| && r[i] == '-';
    assert !IsDigit(r[i]);
    ParseUsizeSpec(r);
    if i > 0 {
      assert r[1..][i - 1] == '-';
      assert !AllDigits(r[1..]);
    }
  }
}
