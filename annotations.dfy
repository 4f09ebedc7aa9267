/** The annotation filter (src/main.rs:78-80) and the speaker tag
    (src/main.rs:70-74, 83). */
module Annotations {
  import opened Types
  import opened Strings

  /** `[...]`: a bracketed note such as `[music]`. */
  predicate IsBracketNote(t: string) {
    |t| > 0 && t[0] == '[' && t[|t| - 1] == ']'
  }

  /** `*...*`: a starred comment such as `*sigh*`. */
  predicate IsStarNote(t: string) {
    |t| > 0 && t[0] == '*' && t[|t| - 1] == '*'
  }

  /** Whether the trimmed text `t` of a finished block is thrown away. Rust's
      `&&` binds tighter than `||`, so the condition reads
      `bracket || (star && len > 2 && remove_comment_subtitles)`: only the
      starred case depends on the flag. `len` counts bytes, but for a text
      that begins and ends with the one-byte `*` it exceeds 2 exactly when
      the number of characters does. */
  predicate IsDropped(t: string, removeComments: bool)
  {
    IsBracketNote(t) || (IsStarNote(t) && |t| > 2 && removeComments)
  }

  /** The rule in the two cases of the flag: a bracketed note always goes;
      otherwise only a starred comment longer than two characters goes, and
      only when the flag is set. Nothing of one character or less goes. */
  lemma FilterRule(t: string, removeComments: bool)
    ensures IsBracketNote(t) ==> IsDropped(t, removeComments)
    ensures !IsBracketNote(t) ==>
      (IsDropped(t, removeComments) <==> removeComments && IsStarNote(t) && |t| > 2)
    ensures |t| <= 1 ==> !IsDropped(t, removeComments)
  {
  }

  /** `"<v name>"` for a named speaker, `""` otherwise. */
  function NameTag(speaker: Option<string>): (tag: string)
    ensures speaker.None? <==> tag == []
  {
    match speaker
    case Some(name) => "<v " + name + ">"
    case None => ""
  }

  /** `format!("{} {}", name_tag, transcript_text.trim())`. */
  function TaggedText(tag: string, text: string): (r: string)
    ensures |r| > |tag| && r[..|tag|] == tag && r[|tag|] == ' '
    ensures IsTrimmed(r[|tag| + 1..]) && r[|tag| + 1..] == Trim(text)
  {
    var r := tag + " " + Trim(text);
    assert r[|tag| + 1..] == Trim(text);
    r
  }

  /** The filter on the examples of a bracketed note and a starred comment:
      `[note]` goes whatever the flag, `*sigh*` only when the flag is set,
      and `**` and the empty text always stay. */
  lemma FilterExamples(removeComments: bool)
    ensures IsDropped("[note]", removeComments)
    ensures IsDropped("*sigh*", removeComments) <==> removeComments
    ensures !IsDropped("**", removeComments) && !IsDropped("", removeComments)
  {
  }

  /** The asymmetry: with the flag cleared a bracketed note is still dropped
      while the starred comment of the same shape is kept. */
  lemma FilterAsymmetry(inner: string)
    ensures IsDropped("[" + inner + "]", false)
    ensures !IsDropped("*" + inner + "*", false)
  {
  }
}
