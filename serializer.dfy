/** The output of src/main.rs:121-129: every entry of `final_blocks` as its
    timing line, its text and a blank line, after the WebVTT signature and
    a blank line. */
module Serializer {
  import opened Types

  const Preamble: string := "WEBVTT\n\n"

  /** `format!("{}\n{}\n\n", clue, transcript)`. */
  function Entry(b: Block): (e: string) {
    b.clue + "\n" + b.text + "\n\n"
  }

  /** The entries of `blocks`, in order. */
  function Render(blocks: seq<Block>): (out: string)
    decreases |blocks|
  {
    if blocks == [] then [] else Entry(blocks[0]) + Render(blocks[1..])
  }

  /** One more block renders as one more entry at the end. */
  lemma {:induction false} RenderAppend(blocks: seq<Block>, b: Block)
    ensures Render(blocks + [b]) == Render(blocks) + Entry(b)
    decreases |blocks|
  {
    if blocks == [] {
      assert [] + [b] == [b] && [b][1..] == [];
    } else {
      assert (blocks + [b])[1..] == blocks[1..] + [b];
      RenderAppend(blocks[1..], b);
    }
  }

  /** Rendering distributes over concatenation. */
  lemma {:induction false} RenderConcat(a: seq<Block>, b: seq<Block>)
    ensures Render(a + b) == Render(a) + Render(b)
    decreases |a|
  {
    if a == [] {
      assert a + b == b;
    } else {
      assert (a + b)[1..] == a[1..] + b;
      RenderConcat(a[1..], b);
    }
  }

  /** The `for` loop filling `final_buff`, then the signature in front. */
  method Serialize(blocks: seq<Block>) returns (out: string)
    ensures out == Preamble + Render(blocks)
  {
    var buff := "";
    for i := 0 to |blocks|
      invariant buff == Render(blocks[..i])
    {
      RenderAppend(blocks[..i], blocks[i]);
      assert blocks[..i + 1] == blocks[..i] + [blocks[i]];
      buff := buff + (blocks[i].clue + "\n" + blocks[i].text + "\n\n");
    }
    assert blocks[..|blocks|] == blocks;
    out := Preamble + buff;
  }
}
