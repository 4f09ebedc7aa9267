/** The block parser of src/main.rs:62-117, one run per input: the line loop
    with its two variables `in_clue` and `transcript_text`, the annotation
    filter and speaker tag applied when a blank line ends a block, and the
    flush of a block still open at the end of the input. The lines are those
    after the two header lines, each with its line break, as `read_line`
    returns them. */
module Parser {
  import opened Types
  import opened Strings
  import opened Annotations

  /** `in_clue` (the pending trimmed timing line) and `transcript_text`
      (the raw lines read since). */
  datatype ParserState = ParserState(inClue: Option<string>, text: string)

  const Initial: ParserState := ParserState(None, "")

  /** The block a blank line finishes, if it is kept: the filter is tested
      first, then whether a timing line is pending (src/main.rs:78-83). */
  function Finish(st: ParserState, tag: string, removeComments: bool): (pushed: Option<Block>) {
    if IsDropped(Trim(st.text), removeComments) then None
    else if st.inClue.Some? then Some(Block(st.inClue.value, TaggedText(tag, st.text)))
    else None
  }

  /** One pass of the `while` body (src/main.rs:77-110): the next state and
      the block to push, if any. */
  function Step(st: ParserState, line: string, tag: string, removeComments: bool)
    : (next: (ParserState, Option<Block>))
  {
    if IsBlank(line) then (Initial, Finish(st, tag, removeComments))
    else if ContainsArrow(line) then (ParserState(Some(Trim(line)), st.text), None)
    else if st.inClue.Some? then (ParserState(st.inClue, st.text + line), None)
    else (st, None)
  }

  function Emitted(b: Option<Block>): seq<Block> {
    if b.Some? then [b.value] else []
  }

  /** The blocks the loop pushes while reading `lines` from `st`, and the
      state it ends in. */
  function Scan(st: ParserState, lines: seq<string>, tag: string, removeComments: bool)
    : (r: (seq<Block>, ParserState))
    decreases |lines|
  {
    if lines == [] then ([], st)
    else
      var (st1, b) := Step(st, lines[0], tag, removeComments);
      var (bs, st2) := Scan(st1, lines[1..], tag, removeComments);
      (Emitted(b) + bs, st2)
  }

  /** The end-of-stream push (src/main.rs:115-117): neither filtered nor
      positioned. */
  function FlushBlock(st: ParserState, tag: string): (pushed: Option<Block>) {
    if st.inClue.Some? then Some(Block(st.inClue.value, TaggedText(tag, st.text))) else None
  }

  /** What one input contributes: the blocks pushed inside the loop, in
      order, and the block pushed at the end of the input. */
  datatype Parsed = Parsed(blocks: seq<Block>, flush: Option<Block>)

  function Parse(lines: seq<string>, tag: string, removeComments: bool): (p: Parsed) {
    var (bs, st) := Scan(Initial, lines, tag, removeComments);
    Parsed(bs, FlushBlock(st, tag))
  }

  /** The read loop itself, over the lines as they come. */
  method ParseSource(lines: seq<string>, tag: string, removeComments: bool) returns (p: Parsed)
    ensures p == Parse(lines, tag, removeComments)
  {
    var inClue: Option<string> := None;
    var text := "";
    var blocks: seq<Block> := [];
    var i := 0;
    while i < |lines|
      invariant 0 <= i <= |lines|
      invariant Scan(Initial, lines[..i], tag, removeComments) == (blocks, ParserState(inClue, text))
    {
      var line := lines[i];
      ghost var before := blocks;
      ghost var next := Step(ParserState(inClue, text), line, tag, removeComments);
      ScanSnoc(lines, i, tag, removeComments);
      if IsBlank(line) {
        var t := Trim(text);
        if IsDropped(t, removeComments) {
          // an annotation: nothing is pushed
        } else if inClue.Some? {
          blocks := blocks + [Block(inClue.value, TaggedText(tag, text))];
        }
        inClue := None;
        text := "";
      } else if ContainsArrow(line) {
        inClue := Some(Trim(line));
      } else if inClue.Some? {
        text := text + line;
      }
      assert ParserState(inClue, text) == next.0 && blocks == before + Emitted(next.1);
      i := i + 1;
    }
    assert lines[..i] == lines;
    var flush := if inClue.Some? then Some(Block(inClue.value, TaggedText(tag, text))) else None;
    p := Parsed(blocks, flush);
  }

  /** One more line read after `lines[..i]`: what was pushed so far, then
      what `Step` pushes, ending in the state `Step` leaves. */
  lemma ScanSnoc(lines: seq<string>, i: nat, tag: string, removeComments: bool)
    requires i < |lines|
    ensures var (bs, st) := Scan(Initial, lines[..i], tag, removeComments);
      var next := Step(st, lines[i], tag, removeComments);
      Scan(Initial, lines[..i + 1], tag, removeComments) == (bs + Emitted(next.1), next.0)
  {
    assert lines[..i + 1] == lines[..i] + [lines[i]];
    ScanAppend(Initial, lines[..i], [lines[i]], tag, removeComments);
    var st := Scan(Initial, lines[..i], tag, removeComments).1;
    var next := Step(st, lines[i], tag, removeComments);
    assert [lines[i]][1..] == [];
    assert Scan(st, [lines[i]], tag, removeComments) == (Emitted(next.1) + [], next.0);
    assert Emitted(next.1) + [] == Emitted(next.1);
  }

  /** Reading `a` then `b` pushes what reading `a` pushes, then what reading
      `b` pushes from the state `a` left. */
  lemma {:induction false} ScanAppend(st: ParserState, a: seq<string>, b: seq<string>,
                                      tag: string, removeComments: bool)
    ensures var (bs1, st1) := Scan(st, a, tag, removeComments);
      var (bs2, st2) := Scan(st1, b, tag, removeComments);
      Scan(st, a + b, tag, removeComments) == (bs1 + bs2, st2)
    decreases |a|
  {
    if a == [] {
      assert a + b == b;
      assert [] + Scan(st, b, tag, removeComments).0 == Scan(st, b, tag, removeComments).0;
    } else {
      assert (a + b)[0] == a[0] && (a + b)[1..] == a[1..] + b;
      var (st1, e) := Step(st, a[0], tag, removeComments);
      ScanAppend(st1, a[1..], b, tag, removeComments);
      var (r1, s1) := Scan(st1, a[1..], tag, removeComments);
      var (r2, s2) := Scan(s1, b, tag, removeComments);
      assert Scan(st, a + b, tag, removeComments) == (Emitted(e) + (r1 + r2), s2);
      assert Emitted(e) + (r1 + r2) == (Emitted(e) + r1) + r2;
    }
  }

  /** The states the loop can reach: no text without a pending timing line,
      and the pending timing line trimmed. */
  predicate Reachable(st: ParserState) {
    (st.inClue.None? ==> st.text == []) && (st.inClue.Some? ==> IsTrimmed(st.inClue.value))
  }

  /** A pushed block: a trimmed timing line, and text made of the tag, one
      space and a trimmed text. */
  predicate TaggedShape(b: Block, tag: string) {
    && IsTrimmed(b.clue)
    && |b.text| > |tag| && b.text[..|tag| + 1] == tag + " "
    && IsTrimmed(b.text[|tag| + 1..])
  }

  /** ... and, for a block pushed inside the loop, text the filter keeps. */
  predicate KeptShape(b: Block, tag: string, removeComments: bool) {
    TaggedShape(b, tag) && !IsDropped(b.text[|tag| + 1..], removeComments)
  }

  lemma {:induction false} ScanShape(st: ParserState, lines: seq<string>, tag: string,
                                     removeComments: bool)
    requires Reachable(st)
    ensures var (bs, st2) := Scan(st, lines, tag, removeComments);
      Reachable(st2) && forall b :: b in bs ==> KeptShape(b, tag, removeComments)
    decreases |lines|
  {
    if lines != [] {
      var (st1, e) := Step(st, lines[0], tag, removeComments);
      if IsBlank(lines[0]) {
        if e.Some? {
          var t := TaggedText(tag, st.text);
          assert t[..|tag| + 1] == tag + " ";
        }
      } else if ContainsArrow(lines[0]) {
        assert st1.inClue.value == Trim(lines[0]);
      }
      ScanShape(st1, lines[1..], tag, removeComments);
    }
  }

  /** Every block an input contributes has the stored shape: the trimmed
      timing line, and `tag + " " + trim(text)`; the ones pushed inside the
      loop have also passed the filter, the flushed one has not been tested. */
  lemma ParsedShape(lines: seq<string>, tag: string, removeComments: bool)
    ensures var p := Parse(lines, tag, removeComments);
      && (forall b :: b in p.blocks ==> KeptShape(b, tag, removeComments))
      && (p.flush.Some? ==> TaggedShape(p.flush.value, tag))
  {
    ScanShape(Initial, lines, tag, removeComments);
    var (_, st) := Scan(Initial, lines, tag, removeComments);
    if st.inClue.Some? {
      var t := TaggedText(tag, st.text);
      assert t[..|tag| + 1] == tag + " ";
    }
  }

  lemma {:induction false} NoiseKeepsInitial(noise: seq<string>, tag: string, removeComments: bool)
    requires forall i :: 0 <= i < |noise| ==> !ContainsArrow(noise[i])
    ensures Scan(Initial, noise, tag, removeComments) == ([], Initial)
    decreases |noise|
  {
    if noise != [] {
      var next := Step(Initial, noise[0], tag, removeComments);
      assert Finish(Initial, tag, removeComments) == None;
      assert next == (Initial, None);
      assert forall i :: 0 <= i < |noise[1..]| ==> noise[1..][i] == noise[i + 1];
      NoiseKeepsInitial(noise[1..], tag, removeComments);
      var rest := Scan(Initial, noise[1..], tag, removeComments);
      assert Scan(Initial, noise, tag, removeComments) == (Emitted(None) + rest.0, rest.1);
      assert rest.0 == [] && rest.1 == Initial;
      assert Emitted(None) + rest.0 == [];
    }
  }

  /** Lines before the first timing line (cue identifiers, notes, blank
      lines) are dropped: they change nothing that is read after them. */
  lemma NoiseIgnored(noise: seq<string>, rest: seq<string>, tag: string, removeComments: bool)
    requires forall i :: 0 <= i < |noise| ==> !ContainsArrow(noise[i])
    ensures Scan(Initial, noise + rest, tag, removeComments) == Scan(Initial, rest, tag, removeComments)
  {
    NoiseKeepsInitial(noise, tag, removeComments);
    ScanAppend(Initial, noise, rest, tag, removeComments);
    var after := Scan(Initial, rest, tag, removeComments);
    assert [] + after.0 == after.0;
  }

  /** One block: a timing line, a text line, a blank line. It is pushed with
      the trimmed timing line and the tagged text unless the filter drops it,
      and either way the parser is back in its initial state. */
  lemma SingleBlock(timing: string, line: string, blank: string, tag: string, removeComments: bool)
    requires ContainsArrow(timing) && !IsBlank(line) && !ContainsArrow(line) && IsBlank(blank)
    ensures Scan(Initial, [timing, line, blank], tag, removeComments)
      == (if IsDropped(Trim(line), removeComments) then []
          else [Block(Trim(timing), TaggedText(tag, line))], Initial)
  {
    ArrowHasDash(timing);
    var s1 := ParserState(Some(Trim(timing)), "");
    var s2 := ParserState(Some(Trim(timing)), line);
    assert "" + line == line;
    var e := Finish(s2, tag, removeComments);
    assert Step(Initial, timing, tag, removeComments) == (s1, None);
    assert Step(s1, line, tag, removeComments) == (s2, None);
    assert Step(s2, blank, tag, removeComments) == (Initial, e);
    var lines := [timing, line, blank];
    assert lines[1..] == [line, blank] && lines[1..][1..] == [blank] && [blank][1..] == [];
    assert Scan(Initial, [], tag, removeComments) == ([], Initial);
    assert Scan(s2, [blank], tag, removeComments) == (Emitted(e) + [], Initial);
    assert Scan(s1, [line, blank], tag, removeComments) == ([] + (Emitted(e) + []), Initial);
    assert Scan(Initial, lines, tag, removeComments) == ([] + ([] + (Emitted(e) + [])), Initial);
    assert [] + ([] + (Emitted(e) + [])) == Emitted(e);
  }

  /** A timing line followed directly by a blank line is kept, with text
      `tag + " "`. */
  lemma EmptyBlockKept(timing: string, blank: string, tag: string, removeComments: bool)
    requires ContainsArrow(timing) && IsBlank(blank)
    ensures Scan(Initial, [timing, blank], tag, removeComments)
      == ([Block(Trim(timing), tag + " ")], Initial)
  {
    ArrowHasDash(timing);
    var s1 := ParserState(Some(Trim(timing)), "");
    FilterRule(Trim(""), removeComments);
    var b := Block(Trim(timing), TaggedText(tag, ""));
    assert TaggedText(tag, "") == tag + " ";
    assert Finish(s1, tag, removeComments) == Some(b);
    assert Step(Initial, timing, tag, removeComments) == (s1, None);
    assert Step(s1, blank, tag, removeComments) == (Initial, Some(b));
    var lines := [timing, blank];
    assert lines[1..] == [blank] && [blank][1..] == [];
    assert Scan(Initial, [], tag, removeComments) == ([], Initial);
    assert Scan(s1, [blank], tag, removeComments) == ([b] + [], Initial);
    assert Scan(Initial, lines, tag, removeComments) == ([] + ([b] + []), Initial);
    assert [] + ([b] + []) == [b];
  }

  /** A second timing line in one block replaces the first but keeps the text
      read so far: the block carries the second timing line and both texts. */
  lemma SecondTimingLineWins(t1: string, x: string, t2: string, y: string, blank: string,
                             tag: string, removeComments: bool)
    requires ContainsArrow(t1) && ContainsArrow(t2) && IsBlank(blank)
    requires !IsBlank(x) && !ContainsArrow(x) && !IsBlank(y) && !ContainsArrow(y)
    requires !IsDropped(Trim(x + y), removeComments)
    ensures Scan(Initial, [t1, x, t2, y, blank], tag, removeComments)
      == ([Block(Trim(t2), TaggedText(tag, x + y))], Initial)
  {
    ArrowHasDash(t1);
    ArrowHasDash(t2);
    var s1 := ParserState(Some(Trim(t1)), "");
    var s2 := ParserState(Some(Trim(t1)), x);
    var s3 := ParserState(Some(Trim(t2)), x);
    var s4 := ParserState(Some(Trim(t2)), x + y);
    var b := Block(Trim(t2), TaggedText(tag, x + y));
    assert "" + x == x;
    assert Step(Initial, t1, tag, removeComments) == (s1, None);
    assert Step(s1, x, tag, removeComments) == (s2, None);
    assert Step(s2, t2, tag, removeComments) == (s3, None);
    assert Step(s3, y, tag, removeComments) == (s4, None);
    assert Step(s4, blank, tag, removeComments) == (Initial, Some(b));
    var lines := [t1, x, t2, y, blank];
    assert lines[1..] == [x, t2, y, blank];
    assert lines[1..][1..] == [t2, y, blank];
    assert lines[1..][1..][1..] == [y, blank];
    assert lines[1..][1..][1..][1..] == [blank];
    assert [blank][1..] == [] && [y, blank][1..] == [blank] && [t2, y, blank][1..] == [y, blank];
    assert [x, t2, y, blank][1..] == [t2, y, blank];
    assert Scan(Initial, [], tag, removeComments) == ([], Initial);
    assert Scan(s4, [blank], tag, removeComments) == ([b] + [], Initial);
    assert [b] + [] == [b] && [] + [b] == [b];
    assert Scan(s3, [y, blank], tag, removeComments) == ([] + [b], Initial);
    assert Scan(s2, [t2, y, blank], tag, removeComments) == ([] + [b], Initial);
    assert Scan(s1, [x, t2, y, blank], tag, removeComments) == ([] + [b], Initial);
    assert Scan(Initial, lines, tag, removeComments) == ([] + [b], Initial);
  }

  /** The block still open at the end of the input is pushed even when the
      filter would have dropped it. */
  lemma FlushSkipsFilter(timing: string, line: string, tag: string)
    requires ContainsArrow(timing) && !IsBlank(line) && !ContainsArrow(line)
    ensures Parse([timing, line], tag, true)
      == Parsed([], Some(Block(Trim(timing), TaggedText(tag, line))))
  {
    ArrowHasDash(timing);
    var s1 := ParserState(Some(Trim(timing)), "");
    var s2 := ParserState(Some(Trim(timing)), line);
    assert "" + line == line;
    assert Step(Initial, timing, tag, true) == (s1, None);
    assert Step(s1, line, tag, true) == (s2, None);
    var lines := [timing, line];
    assert lines[1..] == [line] && [line][1..] == [];
    assert Scan(s2, [], tag, true) == ([], s2);
    assert Scan(s1, [line], tag, true) == ([] + [], s2);
    assert Scan(Initial, lines, tag, true) == ([] + ([] + []), s2);
    assert FlushBlock(s2, tag) == Some(Block(Trim(timing), TaggedText(tag, line)));
  }
}
