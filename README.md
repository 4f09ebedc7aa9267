# subtitle-merger in Dafny

subtitle-merger joins two WebVTT transcripts of one recording into a single
transcript. Each input is usually one speaker's track. It works as follows:

- It checks that each input starts with the `WEBVTT` signature.
- It reads the blocks of each input. A block is a timing line holding `-->`, the
  text lines after it, and a closing blank line.
- It drops annotation blocks: `[...]` always, and `*...*` only with
  `--rm-comment-sub`.
- It prefixes each kept text with the speaker's voice tag, `<v name>`, and
  a space. Without a speaker name the tag is empty, so the stored text still
  starts with a space.
- It collects the first input's blocks in order.
- It inserts each block of the second input into that list with a scan cursor
  that only moves forward. Blocks are ordered by a numeric key taken from the
  start time of the timing line.
- It writes the result after the signature.

All of this happens inside `main` in `src/main.rs`. This model pulls each
piece out into its own definition. Lines and options come in as values, and
errors go out as a `Result`.

| module | file | models |
|---|---|---|
| `Types` | `types.dfy` | `Option`, `Result`, the errors, and a block as its timing line and its text |
| `Strings` | `strings.dfy` | `str::trim` over Unicode White_Space, the blank-line test and `contains("-->")` |
| `TimeKeys` | `timekey.dfy` | `get_clue_number`: `split(" --> ")`, the removal of `:` and `.`, and `parse::<usize>` |
| `Header` | `header.dfy` | the signature check on the first two lines joined |
| `Annotations` | `annotations.dfy` | the annotation filter and the speaker tag |
| `Parser` | `parser.dfy` | the line loop as a state machine (`Step`, `Scan`), the `while` loop as a method (`ParseSource`), and the end-of-input flush |
| `Merge` | `merge.dfy` | the positioned insert with its cursor, as a function (`Insert`, `MergeAll`) and as loops (`InsertBlock`, `MergeSource`) |
| `Serializer` | `serializer.dfy` | the output text, as a function (`Render`) and as the `for` loop (`Serialize`) |
| `Lines` | `lines.dfy` | the line splitting of `read_line` |
| `Transcript` | `transcript.dfy` | one whole run (`Output`, `Run`) and the properties that hold for the whole run |

Several behaviours of the code are pinned down exactly:

- **Filter precedence.** Rust's `&&` binds tighter than `||`. So a bracketed
  note is always dropped, and only the starred case depends on the flag.
- **Ties.** On equal keys a block of the second input goes before the existing
  entry.
- **Reversed equal keys.** Consecutive second-input blocks with equal keys come
  out in reverse order: after any insert, the next block with the same key
  lands immediately before the one just inserted.
- **Cursor after a push.** When a block runs past every entry it is pushed, and
  the cursor stays on the entry that was last *before* the push. It does not
  move to the new last index.
- **Empty first list.** Inserting into an empty list fails, because the source
  reads `final_blocks[actual_index]`.
- **Key before bounds.** The new block's own key is computed before that index.
  So a bad timing line is reported before the out-of-bounds read.
- **Flushed blocks.** The block still open at the end of an input is pushed at
  the end of the list. It is never filtered and never positioned.

Some deviations from a literal transcription:

- **Panics as errors.** The model has three errors:
  - `NotWebVtt` for the header check, which the source returns as an error;
  - `BadTimingLine` for the `unwrap` on `parse`;
  - `IndexOutOfBounds` for `final_blocks[actual_index]`.

  The last two are panics in the source.
- **Parsing, then merging.** The source interleaves the second input's parsing
  with its merging. The model parses it first and then merges the blocks in
  order. The two agree, because parsing never reads `final_blocks`, and every
  failure ends the run.
- **Whitespace.** It is the full Unicode White_Space set that Rust's `trim`
  uses, not only ASCII whitespace.

## Model

| member | source | states |
|---|---|---|
| `Strings.IsBlank` | src/main.rs:77 | `line.trim().is_empty()`: every character of the line is whitespace |
| `Strings.ContainsArrow` | src/main.rs:106 | `line.contains("-->")`: some position of the line starts `-->` |
| `Strings.Trim` | src/main.rs:78 | trimming returns a text with no whitespace at either end, no longer than its input |
| `Strings.TrimSlice` | src/main.rs:78 | the trimmed text is a contiguous slice of the input with only whitespace on both sides |
| `Strings.BlankIsTrimEmpty` | src/main.rs:77 | a line counts as blank exactly when it trims to the empty text |
| `Strings.TrimOfPadded` | src/main.rs:56 | trimming a trimmed text padded with whitespace returns that text |
| `Strings.TrimIdempotent` | src/main.rs:107 | trimming twice equals trimming once |
| `Strings.TrimKeepsInterior` | src/main.rs:56 | a character lying between two non-whitespace characters survives trimming |
| `Strings.ContainsArrowAppend` | src/main.rs:106 | appending a character other than `>` does not create an arrow |
| `Strings.ArrowHasDash` | src/main.rs:106 | a line holding `-->` is not blank |
| `TimeKeys.TimeKey` | src/main.rs:31-37 | `get_clue_number`: the parse of the start field with `:` and `.` removed; no key where the source panics |
| `TimeKeys.StartField` | src/main.rs:32 | `split(" --> ").next()`: the text before the first `" --> "`, or the whole line |
| `TimeKeys.StripSeparators` | src/main.rs:33-34 | the two `replace` calls: the line with every `:` and `.` deleted |
| `TimeKeys.ParseUsize` | src/main.rs:35 | `parse::<usize>`: drops one leading `+`, fails on an empty rest, and otherwise reads the rest as digits |
| `TimeKeys.Digits` | src/main.rs:35 | the decimal value of a run of ASCII digits, or no value when any character is not a digit |
| `TimeKeys.StartFieldSpec` | src/main.rs:32 | the start field is the longest prefix in which no `" --> "` begins; either it is the whole line or a separator follows it |
| `TimeKeys.StripSpec` | src/main.rs:33-34 | no `:` or `.` survives the two replacements |
| `TimeKeys.StripConcat` | src/main.rs:33-34 | stripping distributes over concatenation |
| `TimeKeys.StripIdentity` | src/main.rs:33-34 | a text of digits is left unchanged |
| `TimeKeys.StripKeeps` | src/main.rs:33-34 | every character other than `:` and `.` survives |
| `TimeKeys.DigitsSpec` | src/main.rs:35 | the digit reader succeeds exactly on all-digit texts and returns their decimal value |
| `TimeKeys.ParseUsizeSpec` | src/main.rs:35-36 | `parse::<usize>` succeeds exactly on an optional `+` followed by at least one digit and nothing else, and yields the value those digits spell |
| `TimeKeys.ShowNat` | src/main.rs:35 | the decimal spelling of a number is a non-empty run of digits |
| `TimeKeys.ValueOfShowNat` | src/main.rs:35 | parsing inverts the decimal spelling |
| `TimeKeys.ValueLeadingZeros` | src/main.rs:35 | leading zeros do not change the parsed value |
| `TimeKeys.TimeKeyOfDecimal` | src/main.rs:31-37 | the key of a line that starts with a number and `" --> "` is that number, whatever follows |
| `TimeKeys.TimeKeyOfStart` | src/main.rs:31-37 | when the start field has no space, the key is the parse of that field with its separators removed |
| `TimeKeys.StartFieldBeforeSeparator` | src/main.rs:32 | a prefix without a space followed by `" --> "` is the start field |
| `TimeKeys.StripClock` | src/main.rs:33-34 | a clock `h:m:s.f` made of digits strips to `h m s f` run together |
| `TimeKeys.StripAround` | src/main.rs:33-34 | a separator after text that stripping leaves alone disappears, and the rest is stripped in turn |
| `TimeKeys.TimeKeyExample` | src/main.rs:31-37 | the key of `00:00:01.000 --> 00:00:02.000` is 1000 |
| `TimeKeys.StartExample` | src/main.rs:33-35 | the start field `00:00:01.000` parses as 1000 |
| `TimeKeys.ValueExample` | src/main.rs:35 | `000001000` parses as 1000 |
| `TimeKeys.EmptyStartFails` | src/main.rs:31-37 | a line that starts with `" --> "` has no key |
| `TimeKeys.UnspacedArrowFails` | src/main.rs:31-37 | a line whose arrow lacks the surrounding spaces has no key, because the `-` stays in the number |
| `Header.HeaderText` | src/main.rs:51-54 | the buffer after two `read_line` calls: the first two lines joined, or fewer lines for a shorter input |
| `Header.HeaderOk` | src/main.rs:51-56 | the first two lines, joined, trim to `WEBVTT` |
| `Header.Body` | src/main.rs:51-54 | the block parser reads exactly the lines after the first two |
| `Header.SignatureThenBlankAccepted` | src/main.rs:51-58 | a signature line followed by a blank line passes, whatever follows |
| `Header.TwoNonBlankLinesRejected` | src/main.rs:51-58 | two non-blank first lines fail, because the line break between them survives `trim` |
| `Header.BlankThenSignatureAccepted` | src/main.rs:51-58 | a blank first line followed by the signature passes too |
| `Header.TitledSignatureRejected` | src/main.rs:56-58 | a title after the signature on the same line fails |
| `Annotations.IsDropped` | src/main.rs:79-80 | a bracketed note, or a starred note longer than two when the flag is set |
| `Annotations.FilterRule` | src/main.rs:79-80 | a bracketed note is always dropped; otherwise a text is dropped exactly when the flag is set and it is a starred note longer than two; nothing shorter than two characters is dropped |
| `Annotations.NameTag` | src/main.rs:70-74 | the tag is empty exactly when no speaker name is given |
| `Annotations.TaggedText` | src/main.rs:83 | the stored text is the tag, one space, then the trimmed text |
| `Annotations.FilterExamples` | src/main.rs:79-80 | `[note]` is always dropped; `*sigh*` is dropped exactly when the flag is set; `**` and the empty text are always kept |
| `Annotations.FilterAsymmetry` | src/main.rs:79-80 | with the flag off, a bracketed note is dropped and the starred note of the same shape is kept |
| `Parser.Finish` | src/main.rs:78-83 | the block a blank line finishes: none when the filter drops the trimmed text, else the pending timing line with the tagged text, else none |
| `Parser.Step` | src/main.rs:76-113 | one pass of the loop body: a blank line finishes the block, a timing line replaces the pending one, other lines are appended only after a timing line |
| `Parser.Scan` | src/main.rs:76-113 | the loop over all lines: the blocks pushed, in order, and the final state |
| `Parser.FlushBlock` | src/main.rs:115-117 | the block still open at the end of the input, unfiltered |
| `Parser.Parse` | src/main.rs:62-117 | one input's contribution: the loop's blocks and the flushed block |
| `Parser.ParseSource` | src/main.rs:62-117 | the `while` loop over the lines returns what the line-by-line state machine gives: the blocks pushed and the block flushed at the end |
| `Parser.ScanSnoc` | src/main.rs:76-113 | one more line read pushes what one step of the loop pushes, after what was pushed before |
| `Parser.ScanAppend` | src/main.rs:76-113 | reading two runs of lines pushes the first run's blocks, then the second's from the state the first left |
| `Parser.ScanShape` | src/main.rs:76-113 | every block pushed inside the loop has a trimmed timing line and a tagged, trimmed text that the filter keeps, and the loop only reaches states with a trimmed pending timing line and no text without one |
| `Parser.ParsedShape` | src/main.rs:62-117 | every block an input contributes has the stored shape; the loop's blocks have passed the filter, the flushed block has not been tested |
| `Parser.NoiseKeepsInitial` | src/main.rs:104-110 | lines without an arrow read from the start push nothing and leave the state unchanged |
| `Parser.NoiseIgnored` | src/main.rs:104-110 | lines before the first timing line do not change what is read after them |
| `Parser.SingleBlock` | src/main.rs:77-107 | a timing line, a text line and a blank line push the trimmed timing line with the tagged text unless the filter drops it; either way the parser ends in its initial state |
| `Parser.EmptyBlockKept` | src/main.rs:77-107 | a timing line followed directly by a blank line is kept, with text `tag + " "` |
| `Parser.SecondTimingLineWins` | src/main.rs:106-109 | a second timing line replaces the first one but keeps the text read so far |
| `Parser.FlushSkipsFilter` | src/main.rs:115-117 | a block still open at the end of the input is pushed even when the filter would drop it |
| `Merge.FindSlot` | src/main.rs:88-99 | the scan of the inner `loop` from the cursor |
| `Merge.FindSlotSpec` | src/main.rs:88-99 | the scan stops before the first entry from the cursor on whose key is at least the new one, or runs past the end when every key is smaller; it fails at the first entry without a key |
| `Merge.FindSlotBefore` | src/main.rs:88-93 | when every key passed is smaller and the entry at `p` is at least the new key, the scan stops before `p` |
| `Merge.FindSlotAtEnd` | src/main.rs:94-96 | when every key from the cursor on is smaller, the scan runs past the end |
| `Merge.Insert` | src/main.rs:87-99 | the new block's key is computed first; an empty list fails out of bounds; when all keys are known the insert succeeds; the cursor never moves back; the list grows by exactly that block |
| `Merge.InsertBlock` | src/main.rs:87-100 | the inner `loop` computes the insert |
| `Merge.InsertPlacement` | src/main.rs:88-99 | the block lands at a position at or after the cursor, with the entries keeping their order around it; every entry passed has a smaller key; on a stop the entry after it has a key at least its own and the cursor moves there; on a push the cursor stays on the old last entry |
| `Merge.InsertBefore` | src/main.rs:91-93 | the insert puts the block before the first entry, from the cursor on, whose key is at least its own, and leaves the cursor there |
| `Merge.MergeAll` | src/main.rs:68-100 | the merged list holds the old entries and the inserted blocks and nothing else, and no merge failure is a format error |
| `Merge.MergeSource` | src/main.rs:62-100 | the second input's pass, with the cursor starting at 0 and never reset, computes the merge |
| `Merge.InsertAt` | src/main.rs:88-93 | inserting before `p` continues the merge from cursor `p` |
| `Merge.SortedSplice` | src/main.rs:91-96 | a block placed after keys at most its own and before a key at least its own keeps a sorted list sorted |
| `Merge.InsertKeepsSorted` | src/main.rs:87-99 | if the list is sorted and every entry before the cursor has a key at most the new one, the insert succeeds and keeps the list sorted |
| `Merge.MergeKeepsSorted` | src/main.rs:84-100 | sorted blocks merged into a sorted, non-empty list keep it sorted |
| `Merge.EmptyListFails` | src/main.rs:89 | inserting into an empty list fails out of bounds |
| `Merge.TieReversal` | src/main.rs:91-92 | two second-input blocks with the key of an existing entry come out reversed, both before it |
| `Merge.TieAfterInsert` | src/main.rs:88-98 | for any list and cursor, after a block is inserted or pushed, the next block with the same key lands immediately before it and the cursor moves there |
| `Merge.TieFirst` | src/main.rs:91-92 | on a tie the first block stops before the existing entry |
| `Merge.TieSecond` | src/main.rs:91-92 | the second block stops at the cursor, before the first |
| `Merge.MergeExample` | src/main.rs:84-100 | keys 1000, 3000, 5000 and 2000, 3000, 4000 interleave in key order, with the tie going to the second input |
| `Merge.ExampleFirst` | src/main.rs:88-93 | 2000 stops before 3000 and the cursor moves to it |
| `Merge.ExampleSecond` | src/main.rs:88-98 | 3000 passes 2000 and stops before the first input's 3000 |
| `Merge.ExampleThird` | src/main.rs:88-98 | 4000 passes both 3000s and stops before 5000 |
| `Merge.UnsortedInputStaysUnsorted` | src/main.rs:88-98 | the cursor never moves back, so a second input whose keys go down leaves the merged list unsorted |
| `Merge.UnsortedOrder` | src/main.rs:88-98 | the concrete lists in that example are sorted and not sorted, respectively |
| `Merge.UnsortedFirst` | src/main.rs:88-98 | 2500 passes 1000 and 2000 and stops before 3000 |
| `Merge.UnsortedSecond` | src/main.rs:91-92 | 1500 stops at the cursor, before 2500 |
| `Serializer.Entry` | src/main.rs:125 | one entry: the timing line, the text and a blank line |
| `Serializer.Render` | src/main.rs:124-126 | the entries of all blocks, in list order |
| `Serializer.Serialize` | src/main.rs:121-129 | the `for` loop writes the signature, a blank line, and every entry in list order |
| `Serializer.RenderAppend` | src/main.rs:124-126 | one more block adds its entry at the end |
| `Serializer.RenderConcat` | src/main.rs:124-126 | rendering distributes over concatenation |
| `Lines.ReadLines` | src/main.rs:76 | the successive `read_line` results: each line with its break, the last one without a break as it is |
| `Lines.FirstLine` | src/main.rs:76 | `read_line` returns a non-empty prefix of the remaining input |
| `Lines.FirstLineOf` | src/main.rs:76 | `read_line` returns everything up to and including the next line break |
| `Lines.ReadLinesCons` | src/main.rs:76 | reading a text line by line starts with its first line, break included |
| `Transcript.ReadEntry` | src/main.rs:125 | a rendered entry reads back as its timing line, its text and a blank line |
| `Transcript.FirstList` | src/main.rs:84-117 | `final_blocks` after the first input: its loop blocks in order, then its flushed block |
| `Transcript.MergedBlocks` | src/main.rs:56-117 | the format error when a header fails; otherwise the second input's blocks merged into the first input's list, then the second flush |
| `Transcript.Output` | src/main.rs:56-129 | the signature, a blank line and the rendered merged list, or the error that ends the run |
| `Transcript.Run` | src/main.rs:39-132 | `main` over the lines of both inputs computes the output of the run |
| `Transcript.HeaderGate` | src/main.rs:56-58 | the run fails with the format error exactly when one of the headers is wrong |
| `Transcript.Accounting` | src/main.rs:84-117 | every block either input contributes appears in the output exactly once, and nothing else does |
| `Transcript.NothingToInsert` | src/main.rs:84-117 | with no block inside the second input's loop, the output is the first input's blocks, then its flushed block, then the second input's flushed block |
| `Transcript.OutputSorted` | src/main.rs:84-117 | sorted inputs, a non-empty first list and no open block at the end of the second input give a sorted output |
| `Transcript.SecondFlushLast` | src/main.rs:115-117 | the second input's flushed block is last, whatever its key |
| `Transcript.ReadPreamble` | src/main.rs:129 | the output starts with the signature line and a blank line |
| `Transcript.ParseEntry` | src/main.rs:76-125 | a rendered entry of a reparseable block parses back to that block, untagged |
| `Transcript.ParseRendered` | src/main.rs:76-126 | rendered reparseable blocks parse back to the same blocks, leaving no block open |
| `Transcript.ReadBackLines` | src/main.rs:51-129 | an output passes the header check, and its body is the lines of its entries |
| `Transcript.ReadBack` | src/main.rs:51-129 | an output read back gives its blocks and no open block |
| `Transcript.ReadBackEmpty` | src/main.rs:51-129 | an output without blocks passes the header check and gives no block |
| `Transcript.RoundTrip` | src/main.rs:39-132 | an untagged output given back as the first input, next to a second input with the signature and no blocks, reproduces itself |
| `Transcript.RoundTripAsSecondFails` | src/main.rs:87-89 | the same output given as the second input, next to a first input with the signature and no blocks, fails out of bounds |

## Left out

- Command-line parsing with `clap` (src/main.rs:1-29, 40): the speaker names
  and the flag are passed in as `Transcript.Options`.
- File and console I/O: opening, reading, creating and writing files, and
  `println!` (src/main.rs:42-54, 76, 120-129). The inputs are given as the
  lines `read_line` would return, and the output is returned as a string. I/O
  failures and the wording of the error messages are not modelled.
- The width of `usize`: `parse::<usize>` on a number above `usize::MAX` fails
  in the source, but the model's keys are unbounded naturals.
- Panics become the `BadTimingLine` and `IndexOutOfBounds` results. The model
  does not say what a panic prints.
- `len()` counts bytes in the source. The model counts characters. For a text
  that starts and ends with `*`, the two counts exceed 2 together, so the
  filter agrees.
- The interleaving of the second input's parsing with its merging: the model
  parses first and then merges, with the same result (see above).
- WebVTT itself: cue settings, styling, and timestamps as times. The key is the
  decimal number the digits spell, as in the source.
- `Transcript.RoundTrip`: stated only for blocks in `Transcript.Reparseable`
  form. Their text is a space followed by one trimmed, non-empty line that
  the filter keeps. Other texts also read back as themselves, for example the
  empty text `" "` and texts of several non-blank lines without an arrow.
  The lemma does not cover them; this keeps the proof to one text line per
  entry. Tagged outputs do not round-trip: read back without a speaker name,
  a text `<v A> hi` is stored as ` <v A> hi`, with one more leading space.
