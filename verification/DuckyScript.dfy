/**
 The script runner: a reader that refills a 16-byte buffer, a separate counting
 pass, and one call at a time of the interpreter.
 */
module DuckyScripts {
  import opened Options
  import opened DuckyLines
  import opened DuckyMachine

  const FILE_BUFFER_LEN: nat := 16

  class BadUsbScript {
    const file: string
    var pos: nat
    const fileBuf: array<char>
    var bufStart: nat
    var bufLen: nat
    var fileEnd: bool
    var line: string
    var linePrev: string
    var repeatCnt: nat
    var defDelay: nat
    var lineCur: nat
    var lineNb: nat
    var errorLine: nat
    ghost var done: seq<Emit>

    ghost predicate Valid()
      reads this
    {
      && fileBuf.Length == FILE_BUFFER_LEN + 1
      && bufStart + bufLen <= fileBuf.Length
      && pos <= |file| && (fileEnd ==> pos == |file|)
    }

    /** The characters not yet looked at: the buffer's, the file's, and a final newline the file need not have. */
    ghost function Unread(): string
      reads this, fileBuf
      requires Valid()
    {
      fileBuf[bufStart..bufStart + bufLen] + if fileEnd then "" else file[pos..] + "\n"
    }

    ghost function State(): Machine
      reads this, fileBuf
      requires Valid()
    {
      Machine(Unread(), line, linePrev, repeatCnt, defDelay, lineCur, errorLine, done)
    }

    constructor (file: string)
      ensures Valid() && this.file == file && pos == 0 && lineNb == 0 && line == "" && linePrev == ""
      ensures fresh(fileBuf)
    {
      this.file := file;
      fileBuf := new char[FILE_BUFFER_LEN + 1];
      pos, bufStart, bufLen, fileEnd := 0, 0, 0, false;
      line, linePrev, repeatCnt, defDelay := "", "", 0, 0;
      lineCur, lineNb, errorLine := 0, 0, 0;
      done := [];
    }

    /** Reads up to 16 characters into the buffer. */
    method ReadFile() returns (read: nat)
      requires Valid()
      modifies this`pos, fileBuf
      ensures Valid() && read == (if |file| - old(pos) < FILE_BUFFER_LEN then |file| - old(pos) else FILE_BUFFER_LEN)
      ensures pos == old(pos) + read && fileBuf[..read] == file[old(pos)..pos]
    {
      read := if |file| - pos < FILE_BUFFER_LEN then |file| - pos else FILE_BUFFER_LEN;
      for i := 0 to read
        invariant pos == old(pos) && fileBuf[..i] == file[pos..pos + i]
      {
        fileBuf[i] := file[pos + i];
      }
      pos := pos + read;
    }

    /** The counting pass finds as many lines as the script has, up to the counter's 16 bits. */
    method Preload()
      requires Valid() && pos == 0 && lineNb == 0
      modifies this`pos, this`lineNb, fileBuf
      ensures Valid() && pos == 0
      ensures |Split("", file)| < 65536 ==> lineNb == |Split("", file)|
    {
      ghost var total := |Split("", file)|;
      ghost var counted: nat := 0;
      ghost var accumulated := "";
      var lineLen: nat := 0;
      var going := true;
      while going
        invariant Valid() && lineLen == |accumulated|
        invariant counted < 65536 ==> lineNb == counted
        invariant going ==> counted + |Split(accumulated, file[pos..])| == total
        invariant !going ==> counted == total
        decreases going, |file| - pos
      {
        ghost var start := pos;
        var ret := ReadFile();
        for i := 0 to ret
          invariant pos == start + ret && fileBuf[..ret] == file[start..pos] && lineLen == |accumulated|
          invariant counted < 65536 ==> lineNb == counted
          invariant counted + |Split(accumulated, file[start + i..])| == total
        {
          assert fileBuf[i] == fileBuf[..ret][i] == file[start + i];
          assert file[start + i..][1..] == file[start + i + 1..];
          if fileBuf[i] == '\n' && lineLen > 0 {
            lineNb := Wrap16(lineNb + 1);
            lineLen := 0;
            counted, accumulated := counted + 1, "";
          } else {
            lineLen := lineLen + 1;
            accumulated := accumulated + [file[start + i]];
          }
        }
        going := ret > 0;
        if pos == |file| {
          assert file[pos..] == "";
          if lineLen > 0 {
            lineNb := Wrap16(lineNb + 1);
            counted := counted + 1;
            going := false;
          }
        }
      }
      pos := 0;
    }

    /** Starts the script over; the last line of an earlier run is not cleared. */
    method Start()
      requires Valid()
      modifies this
      ensures Valid() && State() == DuckyMachine.Start(file, old(line), old(linePrev)).(errorLine := old(errorLine))
      ensures lineNb == old(lineNb)
    {
      bufLen, bufStart, lineCur, defDelay, repeatCnt, fileEnd, pos := 0, 0, 0, 0, 0, false, 0;
      done := [];
      assert file[0..] == file;
    }

    /** Refilling an empty buffer changes nothing to what is unread, and leaves it empty only at the end. */
    method Refill()
      requires Valid() && bufLen == 0
      modifies this`pos, this`bufLen, this`bufStart, this`fileEnd, fileBuf
      ensures Valid() && Unread() == old(Unread()) && (bufLen == 0 ==> Unread() == "")
    {
      ghost var rest := file[pos..];
      ghost var ended := fileEnd;
      var read := ReadFile();
      assert rest == rest[..read] + file[pos..];
      assert fileBuf[..read] == rest[..read];
      bufLen := read;
      if pos == |file| {
        if bufLen < FILE_BUFFER_LEN && !fileEnd {
          fileBuf[bufLen] := '\n';
          assert fileBuf[..read] == rest;
          bufLen := bufLen + 1;
          fileEnd := true;
          assert fileBuf[..bufLen] == rest + "\n";
        }
      }
      bufStart := 0;
    }

    /** The scan of the buffer: up to a newline that ends a line, or to its end. */
    method Scan() returns (found: bool)
      requires Valid() && bufLen > 0
      modifies this`bufStart, this`bufLen, this`line, this`lineCur
      ensures Valid() && |Unread()| < |old(Unread())|
      ensures found ==> FirstLine(old(line), old(Unread())) == Some(Cut(line, Unread()))
      ensures found ==> lineCur == Wrap16(old(lineCur) + 1)
      ensures !found ==> FirstLine(old(line), old(Unread())) == FirstLine(line, Unread()) && lineCur == old(lineCur)
      ensures !found ==> bufLen == 0 && line + Unread() == old(line) + old(Unread())
    {
      ghost var after := if fileEnd then "" else file[pos..] + "\n";
      ghost var end := bufStart + bufLen;
      ghost var text := Unread();
      ghost var script := text;
      found := false;
      var i := bufStart;
      while i < bufStart + bufLen
        invariant bufStart == old(bufStart) && bufLen == old(bufLen) && lineCur == old(lineCur)
        invariant bufStart <= i <= end && text == fileBuf[i..end] + after
        invariant FirstLine(old(line), script) == FirstLine(line, text) && line + text == old(line) + script
      {
        TakeFirst(fileBuf[..], i, end, after);
        if fileBuf[i] == '\n' && |line| > 0 {
          lineCur := Wrap16(lineCur + 1);
          bufLen := bufLen + bufStart - (i + 1);
          bufStart := i + 1;
          return true;
        }
        Accumulates(line, text);
        line := line + [fileBuf[i]];
        text := text[1..];
        i := i + 1;
      }
      bufLen := 0;
    }

    /** One buffer's worth: refills if need be and scans; `ended` is the end of the script without a line. */
    method ScanBuffer() returns (found: bool, ended: bool)
      requires Valid()
      modifies this`pos, this`bufLen, this`bufStart, this`fileEnd, this`line, this`lineCur, fileBuf
      ensures Valid() && !(found && ended)
      ensures found ==> FirstLine(old(line), old(Unread())) == Some(Cut(line, Unread()))
      ensures found ==> lineCur == Wrap16(old(lineCur) + 1)
      ensures !found ==> FirstLine(old(line), old(Unread())) == FirstLine(line, Unread()) && lineCur == old(lineCur)
      ensures !found ==> line + Unread() == old(line) + old(Unread())
      ensures ended ==> Unread() == ""
      ensures !found && !ended ==> |Unread()| < |old(Unread())|
    {
      found, ended := false, false;
      if bufLen == 0 {
        Refill();
        if bufLen == 0 {
          return false, true;
        }
      }
      found := Scan();
      ended := !found && fileEnd;
    }

    /** The next line of the whole file, however it falls across the 16-byte refills. */
    method ReadLine() returns (found: bool)
      requires Valid()
      modifies this`pos, this`bufLen, this`bufStart, this`fileEnd, this`line, this`linePrev, this`lineCur, fileBuf
      ensures Valid() && linePrev == old(line)
      ensures found == FirstLine("", old(Unread())).Some?
      ensures found ==> FirstLine("", old(Unread())) == Some(Cut(line, Unread())) && lineCur == Wrap16(old(lineCur) + 1)
      ensures !found ==> Unread() == "" && line == old(Unread()) && lineCur == old(lineCur)
    {
      linePrev := line;
      line := "";
      found := false;
      var ended := false;
      ghost var script := Unread();
      while !found && !ended
        invariant Valid() && linePrev == old(line)
        invariant !found ==> lineCur == old(lineCur) && script == line + Unread()
        invariant !found ==> FirstLine("", script) == FirstLine(line, Unread())
        invariant found ==> FirstLine("", script) == Some(Cut(line, Unread())) && lineCur == Wrap16(old(lineCur) + 1)
        invariant ended ==> !found && Unread() == ""
        decreases !found && !ended, |Unread()|
      {
        found, ended := ScanBuffer();
      }
    }

    /** Parses a line and does what it says; keys and waiting are the parser's business. */
    method ParseLine(parse: Parser, text: string) returns (parsed: Parsed)
      requires Valid()
      modifies this`defDelay, this`repeatCnt
      ensures parsed == parse(text)
      ensures defDelay == if parsed.SetDefault? then parsed.delay else old(defDelay)
      ensures repeatCnt == if parsed.Repeat? then parsed.count else old(repeatCnt)
    {
      parsed := parse(text);
      match parsed {
        case SetDefault(delay) => defDelay := delay;
        case Repeat(count) => repeatCnt := count;
        case _ =>
      }
    }

    /** A call that repeats the previous line. */
    method RepeatLine(parse: Parser) returns (result: Result)
      requires Valid() && repeatCnt > 0
      modifies this`repeatCnt, this`defDelay, this`done, this`errorLine
      ensures Valid() && (State(), result) == CallRepeated(parse, old(State()))
    {
      repeatCnt := repeatCnt - 1;
      var parsed := ParseLine(parse, linePrev);
      assert Unread() == old(Unread());
      if parsed == Blank {
        done := done + [Emit(linePrev, 0)];
        return Delay(0);
      } else if parsed == Bad {
        errorLine := if lineCur == 0 then 65535 else lineCur - 1;
        return Failed;
      }
      var delay := (if parsed.Act? then parsed.delay else 0) + defDelay;
      done := done + [Emit(linePrev, delay)];
      return Delay(delay);
    }

    /** What follows once a line has been read. */
    method PerformLine(parse: Parser) returns (result: Result)
      requires Valid()
      modifies this`repeatCnt, this`defDelay, this`done, this`errorLine
      ensures Valid()
      ensures result == Perform(parse, old(State()), line).1
      ensures result == Failed ==> State() == old(State()).(errorLine := lineCur)
      ensures result != Failed ==> State() == Perform(parse, old(State()), line).0
    {
      var parsed := ParseLine(parse, line);
      assert Unread() == old(Unread());
      var delay: nat := defDelay;
      match parsed {
        case Blank =>
          errorLine := lineCur;
          return Failed;
        case Bad =>
          errorLine := lineCur;
          return Failed;
        case Act(own) =>
          delay := own + defDelay;
        case _ =>
      }
      done := done + [Emit(line, delay)];
      return Delay(delay);
    }

    /** One call of the interpreter is one call of the machine on the unread script. */
    method ExecuteNext(parse: Parser) returns (result: Result)
      requires Valid()
      modifies this, fileBuf
      ensures Valid() && (State(), result) == Call(parse, old(State()))
    {
      if repeatCnt > 0 {
        result := RepeatLine(parse);
        return;
      }
      var found := ReadLine();
      assert State() == ReadNext(old(State()));
      if !found {
        return Finished;
      }
      result := PerformLine(parse);
    }

    /** Runs any script whose run ends; it then has done what the script with its repeats written out does. */
    method Run(parse: Parser) returns (ends: bool)
      requires Valid() && !Sticks(parse, line, Split("", file))
      modifies this, fileBuf
      ensures Valid() && (done, ends) == Straight(parse, 0, Expand(parse, old(line), Split("", file)))
      ensures |Split("", file)| < 65536 && ends ==> lineCur == |Split("", file)|
    {
      Start();
      ghost var m := State();
      var result := Delay(0);
      ScriptRuns(parse, file, old(line), old(linePrev));
      ErrorLineIsIdle(parse, DuckyMachine.Start(file, old(line), old(linePrev)), errorLine);
      LinesAreSplit(file);
      if |Split("", file)| < 65536 {
        CounterCountsLines(parse, m);
      }
      while result.Delay?
        invariant Valid()
        invariant result.Delay? ==> !WillStick(parse, State()) && Execute(parse, State()) == Execute(parse, m)
        invariant !result.Delay? ==> Execute(parse, m) == (State(), result == Finished)
        decreases result.Delay?, |State().unread|, State().repeats
      {
        ghost var before := State();
        result := ExecuteNext(parse);
        if result.Delay? {
          FreeGoesOn(parse, before);
        }
      }
      ends := result == Finished;
    }
  }

  lemma {:induction false} TakeFirst(buf: seq<char>, i: nat, end: nat, after: string)
    requires i < end <= |buf|
    ensures (buf[i..end] + after)[0] == buf[i] && (buf[i..end] + after)[1..] == buf[i + 1..end] + after
  {
  }

  lemma {:induction false} Accumulates(line: string, text: string)
    requires text != "" && !(text[0] == '\n' && line != "")
    ensures FirstLine(line, text) == FirstLine(line + [text[0]], text[1..])
    ensures line + text == line + [text[0]] + text[1..]
  {
  }

  /** No call looks at the error line. */
  lemma {:induction false} CallIgnoresErrorLine(parse: Parser, m: Machine, errorLine: nat)
    ensures var ((t, result), (u, other)) := (Call(parse, m), Call(parse, m.(errorLine := errorLine)));
            && result == other && t.done == u.done
            && (result.Delay? ==> u == t.(errorLine := errorLine))
  {
  }

  /** The error line left by an earlier run changes nothing to what a run performs. */
  lemma {:induction false} ErrorLineIsIdle(parse: Parser, m: Machine, errorLine: nat)
    requires !WillStick(parse, m)
    ensures !WillStick(parse, m.(errorLine := errorLine))
    ensures Execute(parse, m.(errorLine := errorLine)).0.done == Execute(parse, m).0.done
    ensures Execute(parse, m.(errorLine := errorLine)).1 == Execute(parse, m).1
    decreases |m.unread|, m.repeats
  {
    CallIgnoresErrorLine(parse, m, errorLine);
    if Call(parse, m).1.Delay? {
      FreeGoesOn(parse, m);
      ErrorLineIsIdle(parse, Call(parse, m).0, errorLine);
    }
  }
}
