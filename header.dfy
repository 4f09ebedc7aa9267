/** The header check of src/main.rs:51-58: the first two lines of each input,
    read into one buffer, must trim to the WebVTT signature. */
module Header {
  import opened Strings

  const Signature: string := "WEBVTT"

  /** What two calls of `read_line` leave in the buffer: the first two lines
      joined, or fewer when the input is shorter (the call then reads 0). */
  function HeaderText(lines: seq<string>): string {
    if |lines| >= 2 then lines[0] + lines[1]
    else if |lines| == 1 then lines[0]
    else ""
  }

  predicate HeaderOk(lines: seq<string>) {
    Trim(HeaderText(lines)) == Signature
  }

  /** The lines the block parser reads: everything after the first two. */
  function Body(lines: seq<string>): (b: seq<string>)
    ensures |lines| >= 2 ==> lines == lines[..2] + b
    ensures |lines| < 2 ==> b == []
  {
    if |lines| >= 2 then lines[2..] else []
  }

  /** The usual framing, the signature line then a blank line, is accepted
      whatever follows. */
  lemma SignatureThenBlankAccepted(blank: string, rest: seq<string>)
    requires AllSpace(blank)
    ensures HeaderOk([Signature + "\n", blank] + rest)
  {
    assert HeaderText([Signature + "\n", blank] + rest) == [] + Signature + ("\n" + blank);
    TrimOfPadded([], Signature, "\n" + blank);
  }

  /** A first line and a second line that both hold something other than
      whitespace are rejected: the line break between them survives `trim`,
      and the signature has none. This rejects `WEBVTT` followed directly by
      a cue or a note. */
  lemma TwoNonBlankLinesRejected(first: string, second: string, rest: seq<string>)
    requires first != [] && first[|first| - 1] == '\n'
    requires !AllSpace(first) && !AllSpace(second)
    ensures !HeaderOk([first, second] + rest)
  {
    var s := first + second;
    assert HeaderText([first, second] + rest) == s;
    var i :| 0 <= i < |first| && !IsSpace(first[i]);
    var j :| 0 <= j < |second| && !IsSpace(second[j]);
    assert s[i] == first[i] && s[|first| + j] == second[j] && s[|first| - 1] == '\n';
    TrimKeepsInterior(s, i, |first| - 1, |first| + j);
    assert '\n' !in Signature;
  }

  /** The check only looks at the trimmed join, so a blank first line
      followed by the signature passes too. */
  lemma BlankThenSignatureAccepted(blank: string, rest: seq<string>)
    requires AllSpace(blank)
    ensures HeaderOk([blank, Signature + "\n"] + rest)
  {
    assert HeaderText([blank, Signature + "\n"] + rest) == blank + Signature + "\n";
    TrimOfPadded(blank, Signature, "\n");
  }

  /** A title after the signature on the same line, which WebVTT allows, is
      rejected. */
  lemma TitledSignatureRejected(title: string, second: string, rest: seq<string>)
    requires title != [] && !IsSpace(title[0])
    ensures !HeaderOk([Signature + " " + title, second] + rest)
  {
    var s := HeaderText([Signature + " " + title, second] + rest);
    assert s == Signature + " " + title + second;
    assert s[0] == 'W' && s[7] == title[0];
    TrimKeepsInterior(s, 0, 6, 7);
    assert ' ' in Trim(s);
  }
}
