/**
 What the UART echo screen is a window on: an unbounded log of lines, with
 escape codes stripped, line breaks packed and long lines wrapped.
 */
module UartLog {
  import opened Pages

  const COLUMNS_ON_SCREEN: Capacity := 21
  const ESC: char := 27 as char

  predicate Letter(c: char) {
    'a' <= c <= 'z' || 'A' <= c <= 'Z'
  }

  predicate Printable(c: char) {
    ' ' <= c <= '~'
  }

  predicate LineBreak(c: char) {
    c == '\n' || c == '\r'
  }

  /** `lines` is never empty; its last line is the one being written. */
  datatype Log = Log(lines: seq<string>, lastChar: char, escape: bool)

  function Opened(lastChar: char): Log {
    Log([""], lastChar, false)
  }

  predicate NeedsLine(text: string, lastChar: char, c: char) {
    |text| >= COLUMNS_ON_SCREEN || (LineBreak(c) && !LineBreak(lastChar))
  }

  /** Writes a character at the end of the last line, on a new line if it is needed. */
  function Write(lines: seq<string>, lastChar: char, c: char): (written: seq<string>)
    requires lines != []
    ensures written != []
  {
    var roomy := if NeedsLine(lines[|lines| - 1], lastChar, c) then lines + [""] else lines;
    if LineBreak(c) then roomy else roomy[|roomy| - 1 := roomy[|roomy| - 1] + [c]]
  }

  function Push(log: Log, c: char): Log
    requires log.lines != []
  {
    if log.escape then log.(escape := !Letter(c), lastChar := c)
    else if c == '[' && log.lastChar == ESC then log.(escape := true, lastChar := c)
    else if Printable(c) || LineBreak(c) then Log(Write(log.lines, log.lastChar, c), c, false)
    else log.(lastChar := c)
  }

  function Run(lastChar: char, input: string): (log: Log)
    ensures log.lines != []
  {
    if input == "" then Opened(lastChar) else Push(Run(lastChar, input[..|input| - 1]), input[|input| - 1])
  }

  // ----- what the log holds -----

  /** Inside an escape code after `input`: an "ESC [" not yet closed by a letter. */
  predicate InEscape(lastChar: char, input: string) {
    input != "" &&
    var before := input[..|input| - 1];
    var c := input[|input| - 1];
    if InEscape(lastChar, before) then !Letter(c)
    else c == '[' && (if before == "" then lastChar else before[|before| - 1]) == ESC
  }

  /** The input without its escape codes and without anything that cannot be printed. */
  function Stripped(lastChar: char, input: string): string {
    if input == "" then "" else
      var before := input[..|input| - 1];
      var c := input[|input| - 1];
      Stripped(lastChar, before) +
      if Printable(c) && !InEscape(lastChar, before) && !InEscape(lastChar, input) then [c] else ""
  }

  function Joined(lines: seq<string>): string {
    if lines == [] then "" else Joined(lines[..|lines| - 1]) + lines[|lines| - 1]
  }

  lemma {:induction false} JoinedOfWrite(lines: seq<string>, lastChar: char, c: char)
    requires lines != []
    ensures Joined(Write(lines, lastChar, c)) == Joined(lines) + if LineBreak(c) then "" else [c]
  {
    var n := |lines| - 1;
    var grown := lines + [""];
    assert grown[..|lines|] == lines;
    assert Joined(grown) == Joined(lines) + "";
    var roomy := if NeedsLine(lines[n], lastChar, c) then grown else lines;
    var last := |roomy| - 1;
    assert Joined(roomy) == Joined(lines);
    if !LineBreak(c) {
      assert roomy[last := roomy[last] + [c]][..last] == roomy[..last];
      assert Joined(roomy[..last]) + (roomy[last] + [c]) == Joined(roomy) + [c];
    }
  }

  /** The log loses no printable character and invents none: its lines joined are the stripped input. */
  lemma {:induction false} LogIsStrippedInput(lastChar: char, input: string)
    ensures var log := Run(lastChar, input);
            && Joined(log.lines) == Stripped(lastChar, input)
            && log.escape == InEscape(lastChar, input)
            && log.lastChar == if input == "" then lastChar else input[|input| - 1]
  {
    if input == "" {
      assert [""][..0] == [];
    } else {
      var before := input[..|input| - 1];
      LogIsStrippedInput(lastChar, before);
      JoinedOfWrite(Run(lastChar, before).lines, Run(lastChar, before).lastChar, input[|input| - 1]);
    }
  }

  /** No line is longer than the screen is wide, and only printable characters are written. */
  lemma {:induction false} LinesFitScreen(lastChar: char, input: string)
    ensures forall line | line in Run(lastChar, input).lines ::
              |line| <= 21 && forall c | c in line :: ' ' <= c <= '~'
  {
    if input != "" {
      var before := Run(lastChar, input[..|input| - 1]);
      LinesFitScreen(lastChar, input[..|input| - 1]);
      WriteFitsScreen(before.lines, before.lastChar, input[|input| - 1]);
    }
  }

  lemma {:induction false} WriteFitsScreen(lines: seq<string>, lastChar: char, c: char)
    requires lines != []
    requires forall line | line in lines :: |line| <= COLUMNS_ON_SCREEN && forall c | c in line :: Printable(c)
    ensures Printable(c) || LineBreak(c) ==>
              forall line | line in Write(lines, lastChar, c) ::
                |line| <= COLUMNS_ON_SCREEN && forall c | c in line :: Printable(c)
  {
  }

  /** Text without line breaks is wrapped at the width of the screen: full lines, then the rest. */
  lemma {:induction false} WrapsAtWidth(lastChar: char, input: string)
    requires forall i :: 0 <= i < |input| ==> input[i] != '\n' && input[i] != '\r'
    ensures Run(lastChar, input).lines == Paged(Stripped(lastChar, input), 21)
  {
    if input != "" {
      var before, c := input[..|input| - 1], input[|input| - 1];
      WrapsAtWidth(lastChar, before);
      LogIsStrippedInput(lastChar, before);
      LogIsStrippedInput(lastChar, input);
      PagedPush(Stripped(lastChar, before), COLUMNS_ON_SCREEN, c);
      WriteIsPush(Run(lastChar, before).lines, Run(lastChar, before).lastChar, c);
      assert Stripped(lastChar, before) + "" == Stripped(lastChar, before);
    }
  }

  /** Writing a printable character is putting it on the last line, or on a new one when that is full. */
  lemma {:induction false} WriteIsPush(lines: seq<string>, lastChar: char, c: char)
    requires lines != [] && !LineBreak(c)
    ensures var last := |lines| - 1;
            Write(lines, lastChar, c)
            == if |lines[last]| >= COLUMNS_ON_SCREEN then lines + [[c]] else lines[last := lines[last] + [c]]
  {
    assert [] + [c] == [c];
  }

  /** A line break after text starts a line; any more right after it, with no other character between, do nothing. */
  lemma {:induction false} BreaksArePacked(lastChar: char, input: string, breaks: string)
    requires !Run(lastChar, input).escape && breaks != ""
    requires forall i :: 0 <= i < |breaks| ==> breaks[i] == '\n' || breaks[i] == '\r'
    requires input != "" && input[|input| - 1] != '\n' && input[|input| - 1] != '\r'
    ensures Run(lastChar, input + breaks).lines == Run(lastChar, input).lines + [""]
    ensures !Run(lastChar, input + breaks).escape && LineBreak(Run(lastChar, input + breaks).lastChar)
  {
    var n := |breaks| - 1;
    LogIsStrippedInput(lastChar, input);
    assert (input + breaks)[..|input + breaks| - 1] == input + breaks[..n];
    if n == 0 {
      assert input + breaks[..n] == input;
    } else {
      BreaksArePacked(lastChar, input, breaks[..n]);
    }
  }

  lemma {:induction false} RunPush(lastChar: char, input: string, c: char)
    ensures Run(lastChar, input + [c]) == Push(Run(lastChar, input), c)
  {
    assert (input + [c])[..|input|] == input;
  }

  /** Inside an escape code everything but a letter is passed over. */
  lemma {:induction false} ParametersArePassed(lastChar: char, input: string, parameters: string)
    requires Run(lastChar, input).escape
    requires forall c | c in parameters :: !('a' <= c <= 'z') && !('A' <= c <= 'Z')
    ensures Run(lastChar, input + parameters).escape
    ensures Run(lastChar, input + parameters).lines == Run(lastChar, input).lines
  {
    if parameters == "" {
      assert input + parameters == input;
    } else {
      var n := |parameters| - 1;
      assert parameters[n] in parameters && forall c | c in parameters[..n] :: c in parameters;
      ParametersArePassed(lastChar, input, parameters[..n]);
      RunPush(lastChar, input + parameters[..n], parameters[n]);
      assert input + parameters == input + parameters[..n] + [parameters[n]];
    }
  }

  /** An escape code, character 27 and "[" up to the next letter, leaves the screen alone and is over with the letter. */
  lemma {:induction false} EscapeIsInvisible(lastChar: char, input: string, parameters: string, letter: char)
    requires !Run(lastChar, input).escape
    requires forall c | c in parameters :: !('a' <= c <= 'z') && !('A' <= c <= 'Z')
    requires 'a' <= letter <= 'z' || 'A' <= letter <= 'Z'
    ensures var log := Run(lastChar, input + [27 as char] + ['['] + parameters + [letter]);
            log.lines == Run(lastChar, input).lines && !log.escape
  {
    RunPush(lastChar, input, ESC);
    assert !Printable(ESC) && !LineBreak(ESC) && ESC != '[';
    RunPush(lastChar, input + [ESC], '[');
    ParametersArePassed(lastChar, input + [ESC] + ['['], parameters);
    RunPush(lastChar, input + [ESC] + ['['] + parameters, letter);
  }

  /** A printable character outside an escape code ends up at the end of the last line, whatever came before. */
  lemma {:induction false} PrintableIsShown(lastChar: char, input: string, c: char)
    requires !Run(lastChar, input).escape && ' ' <= c <= '~'
    requires c != '[' || Run(lastChar, input).lastChar != 27 as char
    ensures var lines := Run(lastChar, input + [c]).lines;
            lines[|lines| - 1] != "" && lines[|lines| - 1][|lines[|lines| - 1]| - 1] == c
  {
    RunPush(lastChar, input, c);
  }
}
