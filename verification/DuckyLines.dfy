/** The lines of a script, as a split of the whole file. */
module DuckyLines {
  import opened Options

  datatype Cut = Cut(line: string, rest: string)

  /** A newline ends a non-empty accumulator and is otherwise accumulated; the end of the file ends the last line. */
  function Split(accumulated: string, text: string): seq<string>
    decreases |text|
  {
    if text == "" then (if accumulated == "" then [] else [accumulated])
    else if text[0] == '\n' && accumulated != "" then [accumulated] + Split("", text[1..])
    else Split(accumulated + [text[0]], text[1..])
  }

  /** The first line a reader completes, and what is left. */
  function FirstLine(accumulated: string, text: string): (cut: Option<Cut>)
    ensures cut.Some? ==> |cut.value.rest| < |text| && cut.value.line != ""
    decreases |text|
  {
    if text == "" then None
    else if text[0] == '\n' && accumulated != "" then Some(Cut(accumulated, text[1..]))
    else FirstLine(accumulated + [text[0]], text[1..])
  }

  /** The lines successive readings complete. */
  function Lines(text: string): seq<string>
    decreases |text|
  {
    match FirstLine("", text)
    case None => []
    case Some(cut) => [cut.line] + Lines(cut.rest)
  }

  /** Lines read one at a time from the text and a final newline are those of the whole-file split. */
  lemma {:induction false} LinesAreSplit(text: string)
    ensures Lines(text + "\n") == Split("", text)
  {
    FirstIsFirst("", text);
  }

  lemma {:induction false} FirstIsFirst(accumulated: string, text: string)
    ensures Split(accumulated, text)
            == match FirstLine(accumulated, text + "\n")
               case None => []
               case Some(cut) => [cut.line] + Lines(cut.rest)
    decreases |text|
  {
    if text == "" {
      assert text + "\n" == "\n";
      assert ("\n")[1..] == "";
      assert FirstLine(accumulated + "\n", "") == None;
      assert Lines("") == [];
    } else {
      assert (text + "\n")[1..] == text[1..] + "\n";
      if text[0] == '\n' && accumulated != "" {
        FirstIsFirst("", text[1..]);
      } else {
        FirstIsFirst(accumulated + [text[0]], text[1..]);
      }
    }
  }

  // ----- what the lines are -----

  /** The lines one after the other, each with its newline. */
  function Ended(lines: seq<string>): string {
    if lines == [] then "" else lines[0] + "\n" + Ended(lines[1..])
  }

  /** A line is not empty, and has no newline but perhaps one in front, kept from an empty line. */
  predicate IsLine(line: string) {
    line != "" && '\n' !in line[1..]
  }

  lemma {:induction false} EndedFront(line: string, lines: seq<string>)
    ensures Ended([line] + lines) == line + "\n" + Ended(lines)
  {
    assert ([line] + lines)[1..] == lines;
  }

  /** The text is the lines, each with its newline, except perhaps the last. */
  predicate Joins(lines: seq<string>, text: string) {
    && (Ended(lines) == text || Ended(lines) == text + "\n")
    && (text != "" && text[|text| - 1] != '\n' ==> Ended(lines) == text + "\n")
  }

  lemma {:induction false} JoinsFront(line: string, lines: seq<string>, rest: string)
    requires Joins(lines, rest)
    ensures Joins([line] + lines, line + ("\n" + rest))
  {
    EndedFront(line, lines);
    var text := line + ("\n" + rest);
    assert line + "\n" + rest == text && line + "\n" + (rest + "\n") == text + "\n";
    assert rest != "" ==> text[|text| - 1] == rest[|rest| - 1];
  }

  /** The lines put together again are the file, whose last newline may be missing. */
  lemma {:induction false} SplitJoins(accumulated: string, text: string)
    requires accumulated != "" ==> IsLine(accumulated)
    ensures forall line | line in Split(accumulated, text) :: IsLine(line)
    ensures Joins(Split(accumulated, text), accumulated + text)
    decreases |text|
  {
    if text == "" {
      assert accumulated + text == accumulated;
      EndedFront(accumulated, []);
      assert [accumulated] + [] == [accumulated];
    } else if text[0] == '\n' && accumulated != "" {
      SplitJoins("", text[1..]);
      assert text == "\n" + text[1..] && "" + text[1..] == text[1..];
      JoinsFront(accumulated, Split("", text[1..]), text[1..]);
    } else {
      var longer := accumulated + [text[0]];
      assert accumulated != "" ==> longer[1..] == accumulated[1..] + [text[0]];
      SplitJoins(longer, text[1..]);
      assert longer + text[1..] == accumulated + text;
    }
  }

  /** Splitting a file loses nothing: its lines, each ended by a newline, are the file again. */
  lemma {:induction false} LinesAreTheFile(text: string)
    ensures forall line | line in Split("", text) :: IsLine(line)
    ensures Joins(Split("", text), text)
  {
    SplitJoins("", text);
    assert "" + text == text;
  }
}
