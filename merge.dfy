/** The positioned insert of the second input's blocks into `final_blocks`
    (src/main.rs:68, 84-100). The scan cursor `actual_index` starts at 0 for
    the second input and is never reset: each block is inserted before the
    first entry at or after the cursor whose key is at least its own, and the
    cursor is left there; when there is none the block is pushed and the
    cursor stays on the entry that was last before the push. */
module Merge {
  import opened Types
  import opened TimeKeys

  /** `get_clue_number` of an entry's timing line. */
  function Key(b: Block): (key: Option<nat>) {
    TimeKey(b.clue)
  }

  /** Where the scan stops: before the entry at `index`, or past the end. */
  datatype Slot = Before(index: nat) | AtEnd

  /** Every entry in `list[lo..hi]` has a key, and it is below `k`. */
  predicate Below(list: seq<Block>, lo: nat, hi: nat, k: nat)
    requires lo <= hi <= |list|
  {
    forall j :: lo <= j < hi ==> Key(list[j]).Some? && Key(list[j]).value < k
  }

  /** Every entry in `list[..hi]` has a key, and it is at most `k`. */
  predicate AtMost(list: seq<Block>, hi: nat, k: nat)
    requires hi <= |list|
  {
    forall j :: 0 <= j < hi ==> Key(list[j]).Some? && Key(list[j]).value <= k
  }

  /** Every entry has a key and the keys never decrease. */
  predicate Sorted(list: seq<Block>) {
    && (forall i :: 0 <= i < |list| ==> Key(list[i]).Some?)
    && (forall i, j :: 0 <= i < j < |list| ==> Key(list[i]).value <= Key(list[j]).value)
  }

  /** The scan of the inner `loop` from index `i` for key `k`. */
  function FindSlot(list: seq<Block>, i: nat, k: nat): (r: Result<Slot>)
    requires i < |list|
    decreases |list| - i
  {
    match Key(list[i])
    case None => Err(BadTimingLine(list[i].clue))
    case Some(base) =>
      if k <= base then Ok(Before(i))
      else if i == |list| - 1 then Ok(AtEnd)
      else FindSlot(list, i + 1, k)
  }

  /** The scan stops at the first entry whose key is at least `k`, runs past
      the end when there is none, and fails at the first entry whose timing
      line has no key (the `unwrap` in `get_clue_number` panics there). */
  lemma {:induction false} FindSlotSpec(list: seq<Block>, i: nat, k: nat)
    requires i < |list|
    ensures var r := FindSlot(list, i, k);
      && (r.Ok? && r.value.Before? ==>
            && i <= r.value.index < |list| && Below(list, i, r.value.index, k)
            && Key(list[r.value.index]).Some? && k <= Key(list[r.value.index]).value)
      && (r.Ok? && r.value.AtEnd? ==> Below(list, i, |list|, k))
      && (r.Err? ==>
            exists j :: i <= j < |list| && Below(list, i, j, k)
              && Key(list[j]).None? && r.error == BadTimingLine(list[j].clue))
    decreases |list| - i
  {
    if Key(list[i]).Some? && k > Key(list[i]).value && i < |list| - 1 {
      FindSlotSpec(list, i + 1, k);
    }
  }

  /** Conversely, the conditions determine the scan: it stops before the
      first entry at or after `i` whose key is at least `k` ... */
  lemma {:induction false} FindSlotBefore(list: seq<Block>, i: nat, k: nat, p: nat)
    requires i <= p < |list| && Below(list, i, p, k)
    requires Key(list[p]).Some? && k <= Key(list[p]).value
    ensures FindSlot(list, i, k) == Ok(Before(p))
    decreases p - i
  {
    if i < p {
      FindSlotBefore(list, i + 1, k, p);
    }
  }

  /** ... and runs past the end when every key from `i` on is below `k`. */
  lemma {:induction false} FindSlotAtEnd(list: seq<Block>, i: nat, k: nat)
    requires i < |list| && Below(list, i, |list|, k)
    ensures FindSlot(list, i, k) == Ok(AtEnd)
    decreases |list| - i
  {
    if i < |list| - 1 {
      FindSlotAtEnd(list, i + 1, k);
    }
  }

  /** One positioned insert: the new list and the new cursor. The block's
      own key is computed first, then the entry at the cursor is read, which
      is out of bounds when the list is empty. */
  function Insert(list: seq<Block>, cursor: nat, b: Block): (r: Result<(seq<Block>, nat)>)
    ensures Key(b).None? ==> r == Err(BadTimingLine(b.clue))
    ensures Key(b).Some? && cursor >= |list| ==> r == Err(IndexOutOfBounds)
    ensures (Key(b).Some? && cursor < |list|
      && forall j :: cursor <= j < |list| ==> Key(list[j]).Some?) ==> r.Ok?
    ensures r.Err? ==> r.error != NotWebVtt
    ensures r.Ok? ==> var (l2, c2) := r.value;
      && cursor <= c2 < |list| && |l2| == |list| + 1
      && multiset(l2) == multiset(list) + multiset{b}
  {
    match Key(b)
    case None => Err(BadTimingLine(b.clue))
    case Some(k) =>
      if cursor >= |list| then Err(IndexOutOfBounds)
      else
        FindSlotSpec(list, cursor, k);
        match FindSlot(list, cursor, k)
        case Err(e) => Err(e)
        case Ok(Before(i)) =>
          assert list == list[..i] + list[i..];
          Ok((list[..i] + [b] + list[i..], i))
        case Ok(AtEnd) => Ok((list + [b], |list| - 1))
  }

  /** The inner `loop`, scanning forward from the cursor. */
  method InsertBlock(list: seq<Block>, cursor: nat, b: Block) returns (r: Result<(seq<Block>, nat)>)
    ensures r == Insert(list, cursor, b)
  {
    var k := Key(b);
    if k.None? {
      return Err(BadTimingLine(b.clue));
    }
    var i := cursor;
    while true
      invariant cursor <= i
      invariant i >= |list| ==> i == cursor
      invariant i < |list| ==> cursor < |list| && FindSlot(list, cursor, k.value) == FindSlot(list, i, k.value)
      decreases |list| - i
    {
      if i >= |list| {
        return Err(IndexOutOfBounds);
      }
      var base := Key(list[i]);
      if base.None? {
        return Err(BadTimingLine(list[i].clue));
      }
      if k.value <= base.value {
        return Ok((list[..i] + [b] + list[i..], i));
      } else if i == |list| - 1 {
        return Ok((list + [b], i));
      }
      i := i + 1;
    }
  }

  /** Every block of the second input, in parse order, from the cursor. */
  function MergeAll(list: seq<Block>, cursor: nat, blocks: seq<Block>): (r: Result<seq<Block>>)
    ensures r.Ok? ==> (|r.value| == |list| + |blocks|
      && multiset(r.value) == multiset(list) + multiset(blocks))
    ensures r.Err? ==> r.error != NotWebVtt
    decreases |blocks|
  {
    if blocks == [] then Ok(list)
    else match Insert(list, cursor, blocks[0])
      case Err(e) => Err(e)
      case Ok((l2, c2)) =>
        var r := MergeAll(l2, c2, blocks[1..]);
        assert blocks == [blocks[0]] + blocks[1..];
        r
  }

  /** The second input's pass over `final_blocks`, the cursor starting at 0. */
  method MergeSource(list: seq<Block>, blocks: seq<Block>) returns (r: Result<seq<Block>>)
    ensures r == MergeAll(list, 0, blocks)
  {
    var merged := list;
    var cursor := 0;
    var i := 0;
    while i < |blocks|
      invariant 0 <= i <= |blocks|
      invariant MergeAll(list, 0, blocks) == MergeAll(merged, cursor, blocks[i..])
    {
      assert blocks[i..][0] == blocks[i] && blocks[i..][1..] == blocks[i + 1..];
      var step := InsertBlock(merged, cursor, blocks[i]);
      if step.Err? {
        return Err(step.error);
      }
      merged, cursor := step.value.0, step.value.1;
      i := i + 1;
    }
    assert blocks[i..] == [];
    r := Ok(merged);
  }

  /** The insertion rule: the block lands at a position `p` at or after the
      cursor, every entry it passes has a smaller key, and the entries keep
      their order around it. When it stops before an entry, that entry's key
      is at least its own (so on a tie the new block goes first) and the
      cursor moves to `p`; when it passes every entry it is pushed, and the
      cursor is left on the entry that was last. */
  lemma InsertPlacement(list: seq<Block>, cursor: nat, b: Block) returns (p: nat)
    requires Insert(list, cursor, b).Ok?
    ensures var (l2, c2) := Insert(list, cursor, b).value;
      && Key(b).Some? && cursor <= p <= |list|
      && l2 == list[..p] + [b] + list[p..]
      && Below(list, cursor, p, Key(b).value)
      && (p < |list| ==> c2 == p && Key(list[p]).Some? && Key(b).value <= Key(list[p]).value)
      && (p == |list| ==> c2 == |list| - 1)
  {
    var k := Key(b).value;
    FindSlotSpec(list, cursor, k);
    match FindSlot(list, cursor, k)
    case Ok(Before(i)) =>
      p := i;
    case Ok(AtEnd) =>
      p := |list|;
      assert list[..p] == list && list[p..] == [];
  }

  /** A block placed after entries with keys at most its own and before
      entries with keys at least its own keeps a sorted list sorted. */
  lemma SortedSplice(list: seq<Block>, p: nat, b: Block)
    requires Sorted(list) && p <= |list| && Key(b).Some?
    requires AtMost(list, p, Key(b).value)
    requires p < |list| ==> Key(b).value <= Key(list[p]).value
    ensures Sorted(list[..p] + [b] + list[p..])
  {
    var k := Key(b).value;
    var l2 := list[..p] + [b] + list[p..];
    assert forall j :: 0 <= j < p ==> l2[j] == list[j];
    assert forall j :: p < j < |l2| ==> l2[j] == list[j - 1];
    forall i, j | 0 <= i < j < |l2|
      ensures Key(l2[i]).Some? && Key(l2[j]).Some? && Key(l2[i]).value <= Key(l2[j]).value
    {
      if j < p {
      } else if j == p {
      } else if i < p {
        assert Key(list[i]).value <= k <= Key(list[p]).value;
      } else if i == p {
        assert k <= Key(list[p]).value;
      } else {
        assert Key(list[i - 1]).value <= Key(list[j - 1]).value;
      }
    }
  }

  /** The insert keeps the list sorted when every entry before the cursor
      has a key at most the block's; afterwards the same holds of the new
      cursor, so the next block of a sorted input may follow. */
  lemma InsertKeepsSorted(list: seq<Block>, cursor: nat, b: Block)
    requires Sorted(list) && Key(b).Some? && cursor < |list|
    requires AtMost(list, cursor, Key(b).value)
    ensures Insert(list, cursor, b).Ok?
    ensures var (l2, c2) := Insert(list, cursor, b).value;
      Sorted(l2) && c2 < |l2| && AtMost(l2, c2, Key(b).value)
  {
    var k := Key(b).value;
    var p := InsertPlacement(list, cursor, b);
    var (l2, c2) := Insert(list, cursor, b).value;
    assert AtMost(list, p, k) by {
      forall j | 0 <= j < p
        ensures Key(list[j]).Some? && Key(list[j]).value <= k
      {
        if j >= cursor {
          assert Key(list[j]).value < k;
        }
      }
    }
    SortedSplice(list, p, b);
    assert forall j :: 0 <= j < c2 ==> l2[j] == list[j];
  }

  /** The second input's blocks merged into a sorted list keep it sorted
      when they come with non-decreasing keys and the list is not empty. */
  lemma {:induction false} MergeKeepsSorted(list: seq<Block>, cursor: nat, blocks: seq<Block>)
    requires Sorted(list) && Sorted(blocks) && cursor < |list|
    requires blocks != [] ==> AtMost(list, cursor, Key(blocks[0]).value)
    ensures MergeAll(list, cursor, blocks).Ok? && Sorted(MergeAll(list, cursor, blocks).value)
    decreases |blocks|
  {
    if blocks != [] {
      InsertKeepsSorted(list, cursor, blocks[0]);
      var (l2, c2) := Insert(list, cursor, blocks[0]).value;
      var rest := blocks[1..];
      assert Sorted(rest);
      if rest != [] {
        assert Key(blocks[0]).value <= Key(rest[0]).value;
      }
      MergeKeepsSorted(l2, c2, rest);
    }
  }

  /** Reading `final_blocks[actual_index]` on an empty list is out of bounds:
      a second input with a block whose key parses fails when the first
      contributed nothing. */
  lemma EmptyListFails(blocks: seq<Block>)
    requires blocks != [] && Key(blocks[0]).Some?
    ensures MergeAll([], 0, blocks) == Err(IndexOutOfBounds)
  {
  }

  /** Two blocks of the second input with the same key, inserted before an
      entry with that key, come out in reverse order: the cursor stays on
      the first one and the second is inserted before it. */
  lemma TieReversal(a: Block, b1: Block, b2: Block, k: nat)
    requires Key(a) == Some(k) && Key(b1) == Some(k) && Key(b2) == Some(k)
    ensures MergeAll([a], 0, [b1, b2]) == Ok([b2, b1, a])
  {
    TieFirst(a, b1, b2, k);
    TieSecond(a, b1, b2, k);
  }

  /** The general rule behind it, for any list and cursor: after a block is
      inserted (before an entry or pushed at the end), the next block with
      the same key lands immediately before it, and the cursor moves there. */
  lemma TieAfterInsert(list: seq<Block>, cursor: nat, b1: Block, b2: Block) returns (q: nat)
    requires Insert(list, cursor, b1).Ok? && Key(b2) == Key(b1)
    ensures var (l2, c2) := Insert(list, cursor, b1).value;
      && q < |l2| && l2[q] == b1
      && Insert(l2, c2, b2) == Ok((l2[..q] + [b2] + l2[q..], q))
  {
    var (l2, c2) := Insert(list, cursor, b1).value;
    var k := Key(b1).value;
    q := InsertPlacement(list, cursor, b1);
    assert l2[q] == b1;
    if q == |list| {
      assert l2[c2] == list[|list| - 1];
    }
    assert Below(l2, c2, q, k);
    InsertBefore(l2, c2, b2, q);
  }

  /** The first of them stops before the entry with the same key. */
  lemma TieFirst(a: Block, b1: Block, b2: Block, k: nat)
    requires Key(a) == Some(k) && Key(b1) == Some(k)
    ensures MergeAll([a], 0, [b1, b2]) == MergeAll([b1, a], 0, [b2])
  {
    assert [b1] + [b2] == [b1, b2];
    assert [a][..0] + [b1] + [a][0..] == [b1, a];
    InsertAt([a], 0, b1, 0, [b1, a], [b2]);
  }

  /** The second stops at the cursor, before the first. */
  lemma TieSecond(a: Block, b1: Block, b2: Block, k: nat)
    requires Key(b1) == Some(k) && Key(b2) == Some(k)
    ensures MergeAll([b1, a], 0, [b2]) == Ok([b2, b1, a])
  {
    assert [b2] + [] == [b2];
    assert [b1, a][..0] + [b2] + [b1, a][0..] == [b2, b1, a];
    InsertAt([b1, a], 0, b2, 0, [b2, b1, a], []);
  }

  /** The insert is determined by where the scan stops. */
  lemma InsertBefore(list: seq<Block>, cursor: nat, b: Block, p: nat)
    requires Key(b).Some? && cursor <= p < |list| && Below(list, cursor, p, Key(b).value)
    requires Key(list[p]).Some? && Key(b).value <= Key(list[p]).value
    ensures Insert(list, cursor, b) == Ok((list[..p] + [b] + list[p..], p))
  {
    FindSlotBefore(list, cursor, Key(b).value, p);
  }

  /** One step of `MergeAll`: the first block is inserted, the rest follow
      from the new list and cursor. */
  lemma MergeStep(list: seq<Block>, cursor: nat, b: Block, rest: seq<Block>)
    requires Insert(list, cursor, b).Ok?
    ensures MergeAll(list, cursor, [b] + rest)
      == MergeAll(Insert(list, cursor, b).value.0, Insert(list, cursor, b).value.1, rest)
  {
    assert ([b] + rest)[0] == b && ([b] + rest)[1..] == rest;
  }

  /** The block lands before the entry at `p`, the scan having passed the
      entries from the cursor up to it. */
  lemma InsertAt(list: seq<Block>, cursor: nat, b: Block, p: nat, result: seq<Block>, rest: seq<Block>)
    requires Key(b).Some? && cursor <= p < |list| && Below(list, cursor, p, Key(b).value)
    requires Key(list[p]).Some? && Key(b).value <= Key(list[p]).value
    requires result == list[..p] + [b] + list[p..]
    ensures Insert(list, cursor, b) == Ok((result, p))
    ensures MergeAll(list, cursor, [b] + rest) == MergeAll(result, p, rest)
  {
    InsertBefore(list, cursor, b, p);
    MergeStep(list, cursor, b, rest);
  }

  /** The interleaving of first-input keys 1000, 3000, 5000 with
      second-input keys 2000, 3000, 4000: the second input's 3000 goes
      before the first input's. */
  lemma MergeExample(a1: Block, a2: Block, a3: Block, b1: Block, b2: Block, b3: Block)
    requires Key(a1) == Some(1000) && Key(a2) == Some(3000) && Key(a3) == Some(5000)
    requires Key(b1) == Some(2000) && Key(b2) == Some(3000) && Key(b3) == Some(4000)
    ensures MergeAll([a1, a2, a3], 0, [b1, b2, b3]) == Ok([a1, b1, b2, a2, b3, a3])
  {
    ExampleFirst(a1, a2, a3, b1, b2, b3);
    ExampleSecond(a1, a2, a3, b1, b2, b3);
    ExampleThird(a1, a2, a3, b1, b2, b3);
  }

  /** 2000 stops before 3000, and the cursor moves to it. */
  lemma ExampleFirst(a1: Block, a2: Block, a3: Block, b1: Block, b2: Block, b3: Block)
    requires Key(a1) == Some(1000) && Key(a2) == Some(3000) && Key(b1) == Some(2000)
    ensures MergeAll([a1, a2, a3], 0, [b1, b2, b3]) == MergeAll([a1, b1, a2, a3], 1, [b2, b3])
  {
    var l0 := [a1, a2, a3];
    assert [b1] + [b2, b3] == [b1, b2, b3];
    assert l0[..1] + [b1] + l0[1..] == [a1, b1, a2, a3];
    InsertAt(l0, 0, b1, 1, [a1, b1, a2, a3], [b2, b3]);
  }

  /** 3000 passes 2000 and stops before the first input's 3000. */
  lemma ExampleSecond(a1: Block, a2: Block, a3: Block, b1: Block, b2: Block, b3: Block)
    requires Key(b1) == Some(2000) && Key(a2) == Some(3000) && Key(b2) == Some(3000)
    ensures MergeAll([a1, b1, a2, a3], 1, [b2, b3]) == MergeAll([a1, b1, b2, a2, a3], 2, [b3])
  {
    var l1 := [a1, b1, a2, a3];
    assert [b2] + [b3] == [b2, b3];
    assert l1[..2] + [b2] + l1[2..] == [a1, b1, b2, a2, a3];
    InsertAt(l1, 1, b2, 2, [a1, b1, b2, a2, a3], [b3]);
  }

  /** 4000 passes both 3000s and stops before 5000. */
  lemma ExampleThird(a1: Block, a2: Block, a3: Block, b1: Block, b2: Block, b3: Block)
    requires Key(a2) == Some(3000) && Key(a3) == Some(5000)
    requires Key(b2) == Some(3000) && Key(b3) == Some(4000)
    ensures MergeAll([a1, b1, b2, a2, a3], 2, [b3]) == Ok([a1, b1, b2, a2, b3, a3])
  {
    var l2 := [a1, b1, b2, a2, a3];
    var l3 := [a1, b1, b2, a2, b3, a3];
    assert [b3] + [] == [b3];
    assert Below(l2, 2, 4, 4000);
    assert l2[..4] + [b3] + l2[4..] == l3;
    InsertAt(l2, 2, b3, 4, l3, []);
  }

  /** The cursor never moves back, so a second input whose keys go down is
      not sorted in: after 2500 is placed before 3000, the scan for 1500
      starts at 2500 and stops there, behind 2000. */
  lemma UnsortedInputStaysUnsorted(a1: Block, a2: Block, a3: Block, b1: Block, b2: Block)
    requires Key(a1) == Some(1000) && Key(a2) == Some(2000) && Key(a3) == Some(3000)
    requires Key(b1) == Some(2500) && Key(b2) == Some(1500)
    ensures MergeAll([a1, a2, a3], 0, [b1, b2]) == Ok([a1, a2, b2, b1, a3])
    ensures Sorted([a1, a2, a3]) && !Sorted([a1, a2, b2, b1, a3])
  {
    UnsortedFirst(a1, a2, a3, b1, b2);
    UnsortedSecond(a1, a2, a3, b1, b2);
    UnsortedOrder(a1, a2, a3, b1, b2);
  }

  lemma UnsortedOrder(a1: Block, a2: Block, a3: Block, b1: Block, b2: Block)
    requires Key(a1) == Some(1000) && Key(a2) == Some(2000) && Key(a3) == Some(3000)
    requires Key(b2) == Some(1500)
    ensures Sorted([a1, a2, a3]) && !Sorted([a1, a2, b2, b1, a3])
  {
    var l0 := [a1, a2, a3];
    assert forall i :: 0 <= i < 3 ==> Key(l0[i]).Some?;
    var l2 := [a1, a2, b2, b1, a3];
    assert Key(l2[1]).value > Key(l2[2]).value;
  }

  /** 2500 passes 1000 and 2000 and stops before 3000. */
  lemma UnsortedFirst(a1: Block, a2: Block, a3: Block, b1: Block, b2: Block)
    requires Key(a1) == Some(1000) && Key(a2) == Some(2000) && Key(a3) == Some(3000)
    requires Key(b1) == Some(2500)
    ensures MergeAll([a1, a2, a3], 0, [b1, b2]) == MergeAll([a1, a2, b1, a3], 2, [b2])
  {
    var l0 := [a1, a2, a3];
    assert [b1] + [b2] == [b1, b2];
    assert Below(l0, 0, 2, 2500);
    assert l0[..2] + [b1] + l0[2..] == [a1, a2, b1, a3];
    InsertAt(l0, 0, b1, 2, [a1, a2, b1, a3], [b2]);
  }

  /** 1500 stops at once, before 2500 at the cursor. */
  lemma UnsortedSecond(a1: Block, a2: Block, a3: Block, b1: Block, b2: Block)
    requires Key(b1) == Some(2500) && Key(b2) == Some(1500)
    ensures MergeAll([a1, a2, b1, a3], 2, [b2]) == Ok([a1, a2, b2, b1, a3])
  {
    var l1 := [a1, a2, b1, a3];
    var l2 := [a1, a2, b2, b1, a3];
    assert [b2] + [] == [b2];
    assert l1[..2] + [b2] + l1[2..] == l2;
    InsertAt(l1, 2, b2, 2, l2, []);
  }
}
