/** The line splitting of `read_line` (src/main.rs:52-53, 76): each call
    returns the next line with its line break, or the rest of the input when
    no break is left. */
module Lines {

  /** The first line of `s`, with its line break if it has one. */
  function FirstLine(s: string): (r: string)
    ensures |r| <= |s| && r == s[..|r|]
    ensures s != [] ==> r != []
    decreases |s|
  {
    if s == [] then []
    else if s[0] == '\n' then "\n"
    else [s[0]] + FirstLine(s[1..])
  }

  /** The lines successive `read_line` calls return: each keeps its line
      break, and a last line without one is returned as it is. */
  function ReadLines(s: string): (r: seq<string>)
    decreases |s|
  {
    if s == [] then []
    else
      var line := FirstLine(s);
      [line] + ReadLines(s[|line|..])
  }

  /** A line without a break, then a break: that is the first line. */
  lemma {:induction false} FirstLineOf(x: string, rest: string)
    requires '\n' !in x
    ensures FirstLine(x + "\n" + rest) == x + "\n"
    decreases |x|
  {
    var s := x + "\n" + rest;
    if x == [] {
      assert s[0] == '\n';
    } else {
      assert s[0] == x[0] && s[1..] == x[1..] + "\n" + rest;
      FirstLineOf(x[1..], rest);
      assert [x[0]] + (x[1..] + "\n") == x + "\n";
    }
  }

  lemma ReadLinesCons(x: string, rest: string)
    requires '\n' !in x
    ensures ReadLines(x + "\n" + rest) == [x + "\n"] + ReadLines(rest)
  {
    FirstLineOf(x, rest);
    var s := x + "\n" + rest;
    assert s[|x + "\n"|..] == rest;
  }
}
