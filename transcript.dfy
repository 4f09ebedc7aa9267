/** One run of the merger (src/main.rs:39-132 without its I/O): the header
    check of both inputs, the block parser over each, the first input's
    blocks pushed in order, the second's inserted by the cursor scan, each
    input's still-open block pushed at its end, and the rendered output. */
module Transcript {
  import opened Types
  import opened Strings
  import opened Annotations
  import opened Header
  import opened Parser
  import opened Merge
  import opened Serializer
  import opened Lines

  /** The command-line options the core reads: the two speaker names and
      `--rm-comment-sub`. */
  datatype Options = Options(speaker1: Option<string>, speaker2: Option<string>, removeComments: bool)

  /** What the first input leaves in `final_blocks` before the second one
      is read: its blocks in parse order, then its flushed block. */
  function FirstList(p1: Parsed): (list: seq<Block>) {
    p1.blocks + Emitted(p1.flush)
  }

  /** The final list of blocks, or the error that ends the run. */
  function MergedBlocks(lines1: seq<string>, lines2: seq<string>, opts: Options): (r: Result<seq<Block>>) {
    if !HeaderOk(lines1) || !HeaderOk(lines2) then Err(NotWebVtt)
    else
      var p1 := Parse(Body(lines1), NameTag(opts.speaker1), opts.removeComments);
      var p2 := Parse(Body(lines2), NameTag(opts.speaker2), opts.removeComments);
      match MergeAll(FirstList(p1), 0, p2.blocks)
      case Err(e) => Err(e)
      case Ok(merged) => Ok(merged + Emitted(p2.flush))
  }

  /** The text written to the output file. */
  function Output(lines1: seq<string>, lines2: seq<string>, opts: Options): (r: Result<string>) {
    match MergedBlocks(lines1, lines2, opts)
    case Err(e) => Err(e)
    case Ok(blocks) => Ok(Preamble + Render(blocks))
  }

  /** `main` over the lines of the two inputs. */
  method Run(lines1: seq<string>, lines2: seq<string>, opts: Options) returns (r: Result<string>)
    ensures r == Output(lines1, lines2, opts)
  {
    if !HeaderOk(lines1) || !HeaderOk(lines2) {
      return Err(NotWebVtt);
    }
    var p1 := ParseSource(Body(lines1), NameTag(opts.speaker1), opts.removeComments);
    var p2 := ParseSource(Body(lines2), NameTag(opts.speaker2), opts.removeComments);
    var merged := MergeSource(FirstList(p1), p2.blocks);
    if merged.Err? {
      return Err(merged.error);
    }
    var out := Serialize(merged.value + Emitted(p2.flush));
    return Ok(out);
  }

  /** The run stops with the format error exactly when one of the headers
      is wrong; no later failure is reported as that error. */
  lemma HeaderGate(lines1: seq<string>, lines2: seq<string>, opts: Options)
    ensures Output(lines1, lines2, opts) == Err(NotWebVtt)
      <==> !HeaderOk(lines1) || !HeaderOk(lines2)
  {
    if HeaderOk(lines1) && HeaderOk(lines2) {
      var p1 := Parse(Body(lines1), NameTag(opts.speaker1), opts.removeComments);
      var p2 := Parse(Body(lines2), NameTag(opts.speaker2), opts.removeComments);
      var m := MergeAll(FirstList(p1), 0, p2.blocks);
      assert m.Err? ==> m.error != NotWebVtt;
    }
  }

  /** Every block either input contributes ends up in the output exactly
      once, and nothing else does. */
  lemma Accounting(lines1: seq<string>, lines2: seq<string>, opts: Options)
    requires MergedBlocks(lines1, lines2, opts).Ok?
    ensures var p1 := Parse(Body(lines1), NameTag(opts.speaker1), opts.removeComments);
      var p2 := Parse(Body(lines2), NameTag(opts.speaker2), opts.removeComments);
      var r := MergedBlocks(lines1, lines2, opts).value;
      && |r| == |p1.blocks| + |Emitted(p1.flush)| + |p2.blocks| + |Emitted(p2.flush)|
      && multiset(r) == multiset(p1.blocks) + multiset(Emitted(p1.flush))
           + multiset(p2.blocks) + multiset(Emitted(p2.flush))
  {
  }

  /** When the second input contributes no block inside its loop, no key
      is ever computed: the output is the first input's blocks, its
      flushed block and the second's flushed block, in that order. */
  lemma NothingToInsert(lines1: seq<string>, lines2: seq<string>, opts: Options)
    requires HeaderOk(lines1) && HeaderOk(lines2)
    requires Parse(Body(lines2), NameTag(opts.speaker2), opts.removeComments).blocks == []
    ensures var p1 := Parse(Body(lines1), NameTag(opts.speaker1), opts.removeComments);
      var p2 := Parse(Body(lines2), NameTag(opts.speaker2), opts.removeComments);
      MergedBlocks(lines1, lines2, opts) == Ok(p1.blocks + Emitted(p1.flush) + Emitted(p2.flush))
  {
  }

  /** The output is in key order when each input is (the first including
      its flushed block), the first is not empty if the second has blocks
      to insert, and the second has no block open at its end. */
  lemma OutputSorted(lines1: seq<string>, lines2: seq<string>, opts: Options)
    requires HeaderOk(lines1) && HeaderOk(lines2)
    requires var p1 := Parse(Body(lines1), NameTag(opts.speaker1), opts.removeComments);
      var p2 := Parse(Body(lines2), NameTag(opts.speaker2), opts.removeComments);
      && Sorted(FirstList(p1)) && Sorted(p2.blocks) && p2.flush.None?
      && (p2.blocks != [] ==> FirstList(p1) != [])
    ensures MergedBlocks(lines1, lines2, opts).Ok? && Sorted(MergedBlocks(lines1, lines2, opts).value)
  {
    var p1 := Parse(Body(lines1), NameTag(opts.speaker1), opts.removeComments);
    var p2 := Parse(Body(lines2), NameTag(opts.speaker2), opts.removeComments);
    if p2.blocks != [] {
      MergeKeepsSorted(FirstList(p1), 0, p2.blocks);
    }
    var m := MergeAll(FirstList(p1), 0, p2.blocks).value;
    assert m + [] == m;
  }

  /** The second input's flushed block is pushed last, without a key being
      computed, wherever its key would have placed it. */
  lemma SecondFlushLast(lines1: seq<string>, lines2: seq<string>, opts: Options)
    requires MergedBlocks(lines1, lines2, opts).Ok?
    requires Parse(Body(lines2), NameTag(opts.speaker2), opts.removeComments).flush.Some?
    ensures var r := MergedBlocks(lines1, lines2, opts).value;
      r != [] && r[|r| - 1] == Parse(Body(lines2), NameTag(opts.speaker2), opts.removeComments).flush.value
  {
    var p1 := Parse(Body(lines1), NameTag(opts.speaker1), opts.removeComments);
    var p2 := Parse(Body(lines2), NameTag(opts.speaker2), opts.removeComments);
    var mm := MergeAll(FirstList(p1), 0, p2.blocks);
    assert mm.Ok?;
    var r := mm.value + [p2.flush.value];
    assert MergedBlocks(lines1, lines2, opts) == Ok(r);
    assert r[|r| - 1] == p2.flush.value;
  }

  /** A block that reads back as itself: a trimmed timing line with an
      arrow, and text of one space then a trimmed, non-empty line without an
      arrow that the filter keeps; neither holds a line break. */
  predicate Reparseable(b: Block, removeComments: bool) {
    && b.clue != [] && IsTrimmed(b.clue) && '\n' !in b.clue && ContainsArrow(b.clue)
    && |b.text| > 1 && b.text[0] == ' ' && IsTrimmed(b.text[1..]) && '\n' !in b.text
    && !ContainsArrow(b.text) && !IsDropped(b.text[1..], removeComments)
  }

  /** An entry reads back as its timing line, its text line and a blank
      line, each with its break, when neither holds a line break. */
  lemma ReadEntry(b: Block, rest: string)
    requires '\n' !in b.clue && '\n' !in b.text
    ensures ReadLines(Entry(b) + rest)
      == [b.clue + "\n", b.text + "\n", "\n"] + ReadLines(rest)
  {
    var s := Entry(b) + rest;
    assert s == b.clue + "\n" + (b.text + "\n" + ("" + "\n" + rest));
    ReadLinesCons(b.clue, b.text + "\n" + ("" + "\n" + rest));
    ReadLinesCons(b.text, "" + "\n" + rest);
    ReadLinesCons("", rest);
    assert "" + "\n" == "\n";
  }

  /** The signature line and the blank line read back first. */
  lemma ReadPreamble(rest: string)
    ensures ReadLines(Preamble + rest) == ["WEBVTT\n", "\n"] + ReadLines(rest)
  {
    var sig, blank := "WEBVTT", "";
    var tail := blank + "\n" + rest;
    assert Preamble + rest == sig + "\n" + tail;
    ReadLinesCons(sig, tail);
    ReadLinesCons(blank, rest);
    assert sig + "\n" == "WEBVTT\n" && blank + "\n" == "\n";
    assert [sig + "\n"] + ([blank + "\n"] + ReadLines(rest)) == ["WEBVTT\n", "\n"] + ReadLines(rest);
  }

  /** One rendered entry parses back to the same block, untagged. */
  lemma ParseEntry(b: Block, removeComments: bool)
    requires Reparseable(b, removeComments)
    ensures Scan(Initial, [b.clue + "\n", b.text + "\n", "\n"], "", removeComments) == ([b], Initial)
  {
    var c, t := b.clue, b.text;
    var u := t[1..];
    ContainsArrowAppend(c, '\n');
    ContainsArrowAppend(t, '\n');
    assert t == " " + u;
    assert AllSpace(" ") && AllSpace("\n") && AllSpace("\n" + []);
    assert !IsSpace(u[0]) && (t + "\n")[1] == u[0];
    TrimOfPadded(" ", u, "\n");
    assert t + "\n" == " " + u + "\n";
    TrimOfPaddedRight(c, "\n");
    SingleBlock(c + "\n", t + "\n", "\n", "", removeComments);
    var r := TaggedText("", t + "\n");
    assert r == t;
  }

  /** A rendered transcript of such blocks parses back to the same blocks,
      with no block left open. */
  lemma {:induction false} ParseRendered(blocks: seq<Block>, removeComments: bool)
    requires forall i :: 0 <= i < |blocks| ==> Reparseable(blocks[i], removeComments)
    ensures Scan(Initial, ReadLines(Render(blocks)), "", removeComments) == (blocks, Initial)
    decreases |blocks|
  {
    if blocks != [] {
      var b, rest := blocks[0], blocks[1..];
      var entry := [b.clue + "\n", b.text + "\n", "\n"];
      ReadEntry(b, Render(rest));
      ParseEntry(b, removeComments);
      ParseRendered(rest, removeComments);
      ScanAppend(Initial, entry, ReadLines(Render(rest)), "", removeComments);
      assert [b] + rest == blocks;
    }
  }

  /** A rendered transcript reads back as the signature line, a blank line
      and the lines of its entries. */
  lemma ReadBackLines(blocks: seq<Block>)
    ensures var lines := ReadLines(Preamble + Render(blocks));
      HeaderOk(lines) && Body(lines) == ReadLines(Render(blocks))
  {
    var body := ReadLines(Render(blocks));
    ReadPreamble(Render(blocks));
    SignatureThenBlankAccepted("\n", body);
  }

  /** A rendered transcript read back: the header passes, and the parser
      returns the blocks with none left open. */
  lemma ReadBack(blocks: seq<Block>, removeComments: bool)
    requires forall i :: 0 <= i < |blocks| ==> Reparseable(blocks[i], removeComments)
    ensures var lines := ReadLines(Preamble + Render(blocks));
      HeaderOk(lines) && Parse(Body(lines), "", removeComments) == Parsed(blocks, None)
  {
    ReadBackLines(blocks);
    ParseRendered(blocks, removeComments);
  }

  /** The empty transcript: a header and no block. */
  lemma ReadBackEmpty(removeComments: bool, tag: string)
    ensures var lines := ReadLines(Preamble);
      HeaderOk(lines) && Parse(Body(lines), tag, removeComments) == Parsed([], None)
  {
    ReadPreamble([]);
    assert Preamble + [] == Preamble;
    SignatureThenBlankAccepted("\n", []);
    assert ["WEBVTT\n", "\n"] + [] == ["WEBVTT\n", "\n"];
    assert Body(["WEBVTT\n", "\n"]) == [];
  }

  /** The merged list when both headers pass and the parses are known. */
  lemma MergedOf(lines1: seq<string>, lines2: seq<string>, opts: Options, p1: Parsed, p2: Parsed)
    requires HeaderOk(lines1) && HeaderOk(lines2)
    requires Parse(Body(lines1), NameTag(opts.speaker1), opts.removeComments) == p1
    requires Parse(Body(lines2), NameTag(opts.speaker2), opts.removeComments) == p2
    ensures MergedBlocks(lines1, lines2, opts) ==
      match MergeAll(FirstList(p1), 0, p2.blocks)
      case Err(e) => Err(e)
      case Ok(merged) => Ok(merged + Emitted(p2.flush))
  {
  }

  /** Read back as the first input, beside a second input holding the
      signature and no blocks, the output of an untagged run gives the same
      output again. */
  lemma RoundTrip(blocks: seq<Block>, removeComments: bool)
    requires forall i :: 0 <= i < |blocks| ==> Reparseable(blocks[i], removeComments)
    ensures var text := Preamble + Render(blocks);
      Output(ReadLines(text), ReadLines(Preamble), Options(None, None, removeComments)) == Ok(text)
  {
    var lines1, lines2 := ReadLines(Preamble + Render(blocks)), ReadLines(Preamble);
    var opts := Options(None, None, removeComments);
    ReadBack(blocks, removeComments);
    ReadBackEmpty(removeComments, "");
    MergedOf(lines1, lines2, opts, Parsed(blocks, None), Parsed([], None));
    assert FirstList(Parsed(blocks, None)) == blocks;
    assert MergeAll(blocks, 0, []) == Ok(blocks);
    assert blocks + Emitted(None) == blocks;
    assert MergedBlocks(lines1, lines2, opts) == Ok(blocks);
  }

  /** The same text read back as the second input, beside a first input
      holding the signature and no blocks, fails: there is no entry for the
      cursor to read. */
  lemma RoundTripAsSecondFails(blocks: seq<Block>, removeComments: bool)
    requires forall i :: 0 <= i < |blocks| ==> Reparseable(blocks[i], removeComments)
    requires blocks != [] && Key(blocks[0]).Some?
    ensures var text := Preamble + Render(blocks);
      Output(ReadLines(Preamble), ReadLines(text), Options(None, None, removeComments))
        == Err(IndexOutOfBounds)
  {
    var lines1, lines2 := ReadLines(Preamble), ReadLines(Preamble + Render(blocks));
    var opts := Options(None, None, removeComments);
    ReadBack(blocks, removeComments);
    ReadBackEmpty(removeComments, "");
    MergedOf(lines1, lines2, opts, Parsed([], None), Parsed(blocks, None));
    assert FirstList(Parsed([], None)) == [];
    EmptyListFails(blocks);
    assert MergedBlocks(lines1, lines2, opts) == Err(IndexOutOfBounds);
  }
}
