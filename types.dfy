/** Values shared by every stage of the merger. */
module Types {

  datatype Option<+T> = None | Some(value: T)

  /** The fatal outcomes of a run that the model keeps: the header check
      failing, an `unwrap` on a timing line that does not parse, and the
      out-of-bounds index `final_blocks[actual_index]`. */
  datatype Error =
    | NotWebVtt
    | BadTimingLine(line: string)
    | IndexOutOfBounds

  datatype Result<+T> = Ok(value: T) | Err(error: Error)

  /** One entry of `final_blocks`: the trimmed timing line and the tagged text. */
  datatype Block = Block(clue: string, text: string)
}
