/**
 How a script runs, one call at a time, and what that comes to: REPEAT as a
 macro that stands for further copies of the line before it.
 */
module DuckyMachine {
  import opened Options
  import opened DuckyLines

  /** What the parser makes of a line; keys pressed and delays waited are not looked into. */
  datatype Parsed = Act(delay: nat) | SetDefault(delay: nat) | Repeat(count: nat) | Blank | Bad

  type Parser = string -> Parsed

  /** A line performed and the delay that follows it. */
  datatype Emit = Emit(line: string, delay: nat)

  datatype Result = Delay(ms: nat) | Failed | Finished

  /** `unread` is the script still to read, with its final newline; `done` is the history. */
  datatype Machine = Machine(
    unread: string,
    line: string,
    prev: string,
    repeats: nat,
    defDelay: nat,
    lineCur: nat,
    errorLine: nat,
    done: seq<Emit>
  )

  function Wrap16(n: nat): nat {
    if n == 65536 then 0 else n
  }

  /** What parsing a line does to the machine: its delay, default delay or repeat counter. */
  function Perform(parse: Parser, m: Machine, line: string): (Machine, Result) {
    match parse(line)
    case Act(delay) => (m.(done := m.done + [Emit(line, delay + m.defDelay)]), Delay(delay + m.defDelay))
    case SetDefault(delay) => (m.(defDelay := delay, done := m.done + [Emit(line, delay)]), Delay(delay))
    case Repeat(n) => (m.(repeats := n, done := m.done + [Emit(line, m.defDelay)]), Delay(m.defDelay))
    case Blank => (m, Failed)
    case Bad => (m, Failed)
  }

  /** The next line is read: the current one becomes the previous one. */
  function ReadNext(m: Machine): Machine {
    match FirstLine("", m.unread)
    case None => m.(prev := m.line, line := m.unread, unread := "")
    case Some(cut) => m.(prev := m.line, line := cut.line, unread := cut.rest, lineCur := Wrap16(m.lineCur + 1))
  }

  /** A repeated line that fails is blamed on the line before the current one; a blank one only waits. */
  function CallRepeated(parse: Parser, m: Machine): (Machine, Result)
    requires m.repeats > 0
  {
    var t := m.(repeats := m.repeats - 1);
    var (after, result) := Perform(parse, t, m.prev);
    if parse(m.prev) == Blank then (t.(done := t.done + [Emit(m.prev, 0)]), Delay(0))
    else if result == Failed then (after.(errorLine := if m.lineCur == 0 then 65535 else m.lineCur - 1), Failed)
    else (after, result)
  }

  function CallFresh(parse: Parser, m: Machine): (Machine, Result) {
    var t := ReadNext(m);
    if FirstLine("", m.unread) == None then (t, Finished)
    else
      var (after, result) := Perform(parse, t, t.line);
      if result == Failed then (after.(errorLine := t.lineCur), Failed) else (after, result)
  }

  /** One call of `ducky_script_execute_next`. */
  function Call(parse: Parser, m: Machine): (Machine, Result) {
    if m.repeats > 0 then CallRepeated(parse, m) else CallFresh(parse, m)
  }

  /**
   The delay a call asks for: after a line, its own delay and the default; after
   one that sets the default, the new default; a repeated blank line asks for none.
   */
  lemma {:induction false} CallWaits(parse: Parser, m: Machine)
    ensures var (t, result) := Call(parse, m);
            && (m.repeats > 0 || FirstLine("", m.unread).Some? ==>
                  var line := if m.repeats > 0 then m.prev else FirstLine("", m.unread).value.line;
                  result == match parse(line)
                            case Act(delay) => Delay(delay + m.defDelay)
                            case SetDefault(delay) => Delay(delay)
                            case Repeat(_) => Delay(m.defDelay)
                            case Blank => if m.repeats > 0 then Delay(0) else Failed
                            case Bad => Failed)
            && (result.Delay? ==> t.done == m.done + [Emit(if m.repeats > 0 then m.prev else t.line, result.ms)])
            && (m.repeats == 0 && FirstLine("", m.unread) == None ==> result == Finished)
  {
  }

  // ----- when a run ends -----

  predicate Fails(parse: Parser, line: string) {
    parse(line) == Blank || parse(line) == Bad
  }

  predicate Counted(parse: Parser, line: string) {
    parse(line).Repeat? && parse(line).count > 0
  }

  /**
   With `prev` just performed, the lines come to a counted REPEAT right after a
   counted REPEAT.  A line that fails ends the run before that, and so does a
   repeat of a bad line, which can only be one left over from an earlier run.
   */
  predicate Sticks(parse: Parser, prev: string, lines: seq<string>)
    decreases |lines|
  {
    lines != [] && !Fails(parse, lines[0]) &&
    if Counted(parse, lines[0]) && Counted(parse, prev) then true
    else if Counted(parse, lines[0]) && parse(prev) == Bad then false
    else Sticks(parse, lines[0], lines[1..])
  }

  /** The same of a machine that may be in the middle of a repeat. */
  predicate WillStick(parse: Parser, m: Machine) {
    if m.repeats > 0 && Counted(parse, m.prev) then true
    else if m.repeats > 0 && parse(m.prev) == Bad then false
    else Sticks(parse, m.line, Lines(m.unread))
  }

  function AfterCalls(parse: Parser, m: Machine, calls: nat): Machine {
    if calls == 0 then m else Call(parse, AfterCalls(parse, m, calls - 1)).0
  }

  /** The run of which `calls` calls have been made ends with the next. */
  predicate EndsAfter(parse: Parser, m: Machine, calls: nat) {
    !Call(parse, AfterCalls(parse, m, calls)).1.Delay?
  }

  /** Some call answers that the script has finished or failed. */
  ghost predicate Ends(parse: Parser, m: Machine) {
    exists calls: nat :: EndsAfter(parse, m, calls)
  }

  lemma {:induction false} CallsShift(parse: Parser, m: Machine, calls: nat)
    ensures AfterCalls(parse, Call(parse, m).0, calls) == AfterCalls(parse, m, calls + 1)
  {
    if calls > 0 {
      CallsShift(parse, m, calls - 1);
    } else {
      assert AfterCalls(parse, m, 0) == m;
    }
  }

  /** A machine that will stick gets a delay from every call and will still stick. */
  lemma {:induction false} StuckGoesOn(parse: Parser, m: Machine)
    requires WillStick(parse, m)
    ensures var (t, result) := Call(parse, m); result.Delay? && WillStick(parse, t)
  {
    if m.repeats == 0 {
      var lines := Lines(m.unread);
      assert Lines(ReadNext(m).unread) == lines[1..] && ReadNext(m).line == lines[0];
    }
  }

  lemma {:induction false} StuckForEver(parse: Parser, m: Machine, calls: nat)
    requires WillStick(parse, m)
    ensures WillStick(parse, AfterCalls(parse, m, calls))
  {
    if calls > 0 {
      StuckForEver(parse, m, calls - 1);
      StuckGoesOn(parse, AfterCalls(parse, m, calls - 1));
    }
  }

  /** Otherwise a call ends the run, or leaves less to read or less to repeat and still will not stick. */
  lemma {:induction false} FreeGoesOn(parse: Parser, m: Machine)
    requires !WillStick(parse, m) && Call(parse, m).1.Delay?
    ensures var t := Call(parse, m).0;
            !WillStick(parse, t) && (|t.unread| < |m.unread| || (t.unread == m.unread && t.repeats < m.repeats))
  {
    if m.repeats == 0 {
      var lines := Lines(m.unread);
      assert Lines(ReadNext(m).unread) == lines[1..] && ReadNext(m).line == lines[0];
    }
  }

  lemma {:induction false} EndsLater(parse: Parser, m: Machine, calls: nat)
    requires EndsAfter(parse, Call(parse, m).0, calls)
    ensures EndsAfter(parse, m, calls + 1)
  {
    CallsShift(parse, m, calls);
  }

  lemma {:induction false} EndsNow(parse: Parser, m: Machine)
    requires !Call(parse, m).1.Delay?
    ensures EndsAfter(parse, m, 0)
  {
    assert AfterCalls(parse, m, 0) == m;
  }

  lemma {:induction false} FreeEnds(parse: Parser, m: Machine) returns (calls: nat)
    requires !WillStick(parse, m)
    ensures EndsAfter(parse, m, calls)
    decreases |m.unread|, m.repeats
  {
    if Call(parse, m).1.Delay? {
      FreeGoesOn(parse, m);
      calls := FreeEnds(parse, Call(parse, m).0);
      EndsLater(parse, m, calls);
      calls := calls + 1;
    } else {
      EndsNow(parse, m);
      calls := 0;
    }
  }

  /**
   From any state, a run ends exactly when it does not come to a counted REPEAT
   right after a counted REPEAT.
   */
  lemma {:induction false} EndsExactlyWhen(parse: Parser, m: Machine)
    ensures Ends(parse, m) <==> !WillStick(parse, m)
  {
    if WillStick(parse, m) {
      forall calls: nat
        ensures !EndsAfter(parse, m, calls)
      {
        StuckForEver(parse, m, calls);
        StuckGoesOn(parse, AfterCalls(parse, m, calls));
      }
    } else {
      var calls := FreeEnds(parse, m);
    }
  }

  /** A fresh start on a file; the previous run's last line may still be in the buffer. */
  function Start(file: string, line: string, prev: string): Machine {
    Machine(file + "\n", line, prev, 0, 0, 0, 0, [])
  }

  /** The same for a script from its start: the line left over from an earlier run counts as the one before its first. */
  lemma {:induction false} ScriptEndsExactlyWhen(parse: Parser, file: string, line: string, prev: string)
    ensures Ends(parse, Start(file, line, prev)) <==> !Sticks(parse, line, Split("", file))
  {
    LinesAreSplit(file);
    EndsExactlyWhen(parse, Start(file, line, prev));
  }

  /** A script of three lines that never ends, if the lines are read as the code reads them. */
  lemma {:induction false} ScriptThatHangs(parse: Parser)
    requires parse("STRING A") == Act(0) && parse("REPEAT 1") == Repeat(1)
    ensures !Ends(parse, Start("STRING A\nREPEAT 1\nREPEAT 1", "", ""))
  {
    var key, again := "STRING A", "REPEAT 1";
    SplitsInThree(key, again, again);
    assert "STRING A\nREPEAT 1\nREPEAT 1" == key + "\n" + again + "\n" + again;
    HangsOnRepeat(parse, key, again);
    ScriptEndsExactlyWhen(parse, key + "\n" + again + "\n" + again, "", "");
  }

  lemma {:induction false} HangsOnRepeat(parse: Parser, key: string, again: string)
    requires !Fails(parse, key) && !Counted(parse, key) && Counted(parse, again)
    ensures Sticks(parse, "", [key, again, again])
  {
    var lines := [key, again, again];
    assert lines[1..] == [again, again] && lines[1..][1..] == [again];
    assert Sticks(parse, again, lines[1..][1..]);
    assert Sticks(parse, key, lines[1..]);
  }

  lemma {:induction false} SplitsInThree(a: string, b: string, c: string)
    requires '\n' !in a && '\n' !in b && '\n' !in c && a != "" && b != "" && c != ""
    ensures Split("", a + "\n" + b + "\n" + c) == [a, b, c]
  {
    LineEnds(a, b + "\n" + c);
    assert a + ("\n" + (b + "\n" + c)) == a + "\n" + b + "\n" + c;
    LineEnds(b, c);
    assert b + ("\n" + c) == b + "\n" + c;
    LineIsSplit("", c, "");
    assert c + "" == c == "" + c;
  }

  lemma {:induction false} LineEnds(line: string, rest: string)
    requires '\n' !in line && line != ""
    ensures Split("", line + ("\n" + rest)) == [line] + Split("", rest)
  {
    LineIsSplit("", line, "\n" + rest);
    assert "" + line == line && ("\n" + rest)[1..] == rest;
  }

  /** The characters of a line are accumulated up to its newline. */
  lemma {:induction false} LineIsSplit(accumulated: string, line: string, rest: string)
    requires '\n' !in line
    ensures Split(accumulated, line + rest) == Split(accumulated + line, rest)
    decreases |line|
  {
    if line == "" {
      assert line + rest == rest && accumulated + line == accumulated;
    } else {
      assert (line + rest)[1..] == line[1..] + rest;
      LineIsSplit(accumulated + [line[0]], line[1..], rest);
      assert accumulated + [line[0]] + line[1..] == accumulated + line;
    }
  }

  // ----- the script with its repeats written out -----

  /** A line to perform, a line to perform once more, or the turn a REPEAT line takes for itself. */
  datatype Instr = Do(line: string) | Again(line: string) | Pause(line: string)

  /** Further copies of a line; those of an uncounted REPEAT stop at the first, which sets the counter to zero. */
  function Copies(parse: Parser, line: string, n: nat): (copies: seq<Instr>)
    ensures n == 0 ==> copies == []
  {
    if n == 0 then []
    else if parse(line).Repeat? then [Pause(line)]
    else [Again(line)] + Copies(parse, line, n - 1)
  }

  /** "REPEAT n" after any other line is written out as n more of that line. */
  lemma {:induction false} CopiesOfLine(parse: Parser, line: string, n: nat)
    requires !parse(line).Repeat?
    ensures |Copies(parse, line, n)| == n && forall c | c in Copies(parse, line, n) :: c == Again(line)
  {
    if n > 0 {
      CopiesOfLine(parse, line, n - 1);
    }
  }

  function Expand(parse: Parser, prev: string, lines: seq<string>): seq<Instr>
    decreases |lines|
  {
    if lines == [] then [] else
      (match parse(lines[0])
       case Repeat(n) => [Pause(lines[0])] + Copies(parse, prev, n)
       case _ => [Do(lines[0])])
      + Expand(parse, lines[0], lines[1..])
  }

  /**
   Straight-line execution of a script without repeats: what it emits, and
   whether it gets to the end.  A blank line fails unless it is a copy.
   */
  function Straight(parse: Parser, defDelay: nat, instrs: seq<Instr>): (seq<Emit>, bool)
    decreases |instrs|
  {
    if instrs == [] then ([], true) else
      var line := instrs[0].line;
      if instrs[0].Pause? then Emitting(Emit(line, defDelay), Straight(parse, defDelay, instrs[1..]))
      else
        match parse(line)
        case Act(delay) => Emitting(Emit(line, delay + defDelay), Straight(parse, defDelay, instrs[1..]))
        case SetDefault(delay) => Emitting(Emit(line, delay), Straight(parse, delay, instrs[1..]))
        case Blank =>
          if instrs[0].Again? then Emitting(Emit(line, 0), Straight(parse, defDelay, instrs[1..])) else ([], false)
        case _ => ([], false)
  }

  function Emitting(emit: Emit, rest: (seq<Emit>, bool)): (seq<Emit>, bool) {
    ([emit] + rest.0, rest.1)
  }

  /** Calls until the script ends or fails; each call leaves less to read or less to repeat. */
  function Execute(parse: Parser, m: Machine): (Machine, bool)
    requires !WillStick(parse, m)
    decreases |m.unread|, m.repeats
  {
    var (t, result) := Call(parse, m);
    if result.Delay? then
      FreeGoesOn(parse, m);
      Execute(parse, t)
    else (t, result == Finished)
  }

  /** What is still to be performed, written out. */
  function Ahead(parse: Parser, m: Machine): seq<Instr> {
    Copies(parse, m.prev, m.repeats) + Expand(parse, m.line, Lines(m.unread))
  }

  predicate SameRun(m: Machine, straight: (seq<Emit>, bool), t: Machine, ends: bool) {
    t.done == m.done + straight.0 && ends == straight.1
  }

  /**
   REPEAT as a macro, from any state whose run ends: it emits exactly what the
   script with its repeats written out emits, with the same delays, and gets as far.
   */
  lemma {:induction false} RepeatIsMacro(parse: Parser, m: Machine)
    requires !WillStick(parse, m)
    ensures var (t, ends) := Execute(parse, m);
            SameRun(m, Straight(parse, m.defDelay, Ahead(parse, m)), t, ends)
    decreases |m.unread|, m.repeats
  {
    var (t, result) := Call(parse, m);
    CallPeels(parse, m);
    if result.Delay? {
      FreeGoesOn(parse, m);
      RepeatIsMacro(parse, t);
      PeelsCompose(m, Straight(parse, m.defDelay, Ahead(parse, m)), t, Straight(parse, t.defDelay, Ahead(parse, t)), result,
                   Execute(parse, t).0, Execute(parse, t).1);
    }
  }

  /** What is ahead of a call is what the call did and what is ahead of it then. */
  predicate Peels(m: Machine, ahead: (seq<Emit>, bool), t: Machine, rest: (seq<Emit>, bool), result: Result) {
    match result
    case Delay(ms) =>
      && |t.done| == |m.done| + 1 && m.done <= t.done && ahead == Emitting(t.done[|m.done|], rest)
      && t.done[|m.done|].delay == ms
    case Failed => t.done == m.done && ahead == ([], false)
    case Finished => t.done == m.done && ahead == ([], true)
  }

  lemma {:induction false} PeelsCompose(m: Machine, ahead: (seq<Emit>, bool), t: Machine, rest: (seq<Emit>, bool),
                                        result: Result, after: Machine, ends: bool)
    requires Peels(m, ahead, t, rest, result) && result.Delay? && SameRun(t, rest, after, ends)
    ensures SameRun(m, ahead, after, ends)
  {
    assert t.done == m.done + [t.done[|m.done|]];
    assert t.done + rest.0 == m.done + ([t.done[|m.done|]] + rest.0);
  }

  lemma {:induction false} CallPeels(parse: Parser, m: Machine)
    requires !WillStick(parse, m)
    ensures var (t, result) := Call(parse, m);
            Peels(m, Straight(parse, m.defDelay, Ahead(parse, m)), t, Straight(parse, t.defDelay, Ahead(parse, t)), result)
  {
    if m.repeats > 0 {
      RepeatPeels(parse, m);
    } else if FirstLine("", m.unread) == None {
      assert Lines(m.unread) == [];
      assert Ahead(parse, m) == [];
    } else {
      FreshPeels(parse, m);
    }
  }

  lemma {:induction false} StraightFront(parse: Parser, defDelay: nat, first: Instr, rest: seq<Instr>)
    ensures Straight(parse, defDelay, [first] + rest) ==
              if first.Pause? then Emitting(Emit(first.line, defDelay), Straight(parse, defDelay, rest))
              else
                match parse(first.line)
                case Act(delay) => Emitting(Emit(first.line, delay + defDelay), Straight(parse, defDelay, rest))
                case SetDefault(delay) => Emitting(Emit(first.line, delay), Straight(parse, delay, rest))
                case Blank =>
                  if first.Again? then Emitting(Emit(first.line, 0), Straight(parse, defDelay, rest)) else ([], false)
                case _ => ([], false)
  {
    assert ([first] + rest)[1..] == rest;
  }

  /** A repeated call performs the first instruction ahead: a copy, or the turn of an uncounted REPEAT. */
  lemma {:induction false} RepeatPeels(parse: Parser, m: Machine)
    requires m.repeats > 0 && !Counted(parse, m.prev)
    ensures var (t, result) := CallRepeated(parse, m);
            Peels(m, Straight(parse, m.defDelay, Ahead(parse, m)), t, Straight(parse, t.defDelay, Ahead(parse, t)), result)
  {
    if parse(m.prev).Repeat? {
      PausePeels(parse, m);
    } else {
      CopyPeels(parse, m);
    }
  }

  lemma {:induction false} PausePeels(parse: Parser, m: Machine)
    requires m.repeats > 0 && parse(m.prev) == Repeat(0)
    ensures var (t, result) := CallRepeated(parse, m);
            Peels(m, Straight(parse, m.defDelay, Ahead(parse, m)), t, Straight(parse, t.defDelay, Ahead(parse, t)), result)
  {
    var t := CallRepeated(parse, m).0;
    assert Ahead(parse, t) == Expand(parse, m.line, Lines(m.unread));
    StraightFront(parse, m.defDelay, Pause(m.prev), Ahead(parse, t));
  }

  lemma {:induction false} CopyPeels(parse: Parser, m: Machine)
    requires m.repeats > 0 && !parse(m.prev).Repeat?
    ensures var (t, result) := CallRepeated(parse, m);
            Peels(m, Straight(parse, m.defDelay, Ahead(parse, m)), t, Straight(parse, t.defDelay, Ahead(parse, t)), result)
  {
    var rest, script := Copies(parse, m.prev, m.repeats - 1), Expand(parse, m.line, Lines(m.unread));
    assert [Again(m.prev)] + rest + script == [Again(m.prev)] + (rest + script);
    StraightFront(parse, m.defDelay, Again(m.prev), rest + script);
  }

  /** The first line of what is ahead: its own instruction, its copies, and the rest of the script. */
  lemma {:induction false} ExpandFront(parse: Parser, prev: string, lines: seq<string>)
    requires lines != []
    ensures parse(lines[0]).Repeat? ==>
              Expand(parse, prev, lines)
              == [Pause(lines[0])] + (Copies(parse, prev, parse(lines[0]).count) + Expand(parse, lines[0], lines[1..]))
    ensures !parse(lines[0]).Repeat? ==> Expand(parse, prev, lines) == [Do(lines[0])] + Expand(parse, lines[0], lines[1..])
  {
  }

  /** So does a call that reads a line: a REPEAT, */
  lemma {:induction false} RepeatLinePeels(parse: Parser, m: Machine, lines: seq<string>)
    requires m.repeats == 0 && lines == Lines(m.unread) && lines != [] && parse(lines[0]).Repeat?
    ensures var (t, result) := CallFresh(parse, m);
            Peels(m, Straight(parse, m.defDelay, Ahead(parse, m)), t, Straight(parse, t.defDelay, Ahead(parse, t)), result)
  {
    var t, line := CallFresh(parse, m).0, lines[0];
    assert lines[1..] == Lines(t.unread) && t.line == line && t.prev == m.line;
    assert Ahead(parse, m) == Expand(parse, m.line, lines);
    ExpandFront(parse, m.line, lines);
    assert Ahead(parse, t) == Copies(parse, m.line, parse(line).count) + Expand(parse, line, lines[1..]);
    StraightFront(parse, m.defDelay, Pause(line), Ahead(parse, t));
  }

  /** or any other line. */
  lemma {:induction false} OtherLinePeels(parse: Parser, m: Machine, lines: seq<string>)
    requires m.repeats == 0 && lines == Lines(m.unread) && lines != [] && !parse(lines[0]).Repeat?
    ensures var (t, result) := CallFresh(parse, m);
            Peels(m, Straight(parse, m.defDelay, Ahead(parse, m)), t, Straight(parse, t.defDelay, Ahead(parse, t)), result)
  {
    var t, line := CallFresh(parse, m).0, lines[0];
    assert lines[1..] == Lines(t.unread) && t.line == line && t.prev == m.line;
    assert Ahead(parse, m) == Expand(parse, m.line, lines);
    ExpandFront(parse, m.line, lines);
    var rest := Expand(parse, line, lines[1..]);
    assert Ahead(parse, t) == rest;
    StraightFront(parse, m.defDelay, Do(line), rest);
  }

  lemma {:induction false} FreshPeels(parse: Parser, m: Machine)
    requires m.repeats == 0 && FirstLine("", m.unread).Some?
    ensures var (t, result) := CallFresh(parse, m);
            Peels(m, Straight(parse, m.defDelay, Ahead(parse, m)), t, Straight(parse, t.defDelay, Ahead(parse, t)), result)
  {
    var lines := Lines(m.unread);
    if parse(lines[0]).Repeat? {
      RepeatLinePeels(parse, m, lines);
    } else {
      OtherLinePeels(parse, m, lines);
    }
  }

  /**
   Every script whose run ends emits what it emits written out, and gets as far.
   */
  lemma {:induction false} ScriptRuns(parse: Parser, file: string, line: string, prev: string)
    requires !Sticks(parse, line, Split("", file))
    ensures !WillStick(parse, Start(file, line, prev))
    ensures var (t, ends) := Execute(parse, Start(file, line, prev));
            (t.done, ends) == Straight(parse, 0, Expand(parse, line, Split("", file)))
  {
    LinesAreSplit(file);
    var m := Start(file, line, prev);
    RepeatIsMacro(parse, m);
    assert Ahead(parse, m) == Expand(parse, line, Split("", file));
    var straight := Straight(parse, 0, Expand(parse, line, Split("", file)));
    assert [] + straight.0 == straight.0;
  }

  /**
   From `m`, a run that ended at `t`: it read all lines and counted each once, or
   it blames the line that fails.
   */
  predicate LinesCounted(parse: Parser, m: Machine, t: Machine, ends: bool) {
    var lines := Lines(m.unread);
    if ends then t.lineCur == m.lineCur + |lines|
    else
      && m.lineCur < t.lineCur <= m.lineCur + |lines|
      && (|| (t.errorLine == t.lineCur && Fails(parse, lines[t.errorLine - m.lineCur - 1]))
          || (t.errorLine == m.lineCur == t.lineCur - 1 && parse(m.line) == Bad && Counted(parse, lines[0])))
  }

  lemma {:induction false} RepeatCounts(parse: Parser, m: Machine, t: Machine, ends: bool)
    requires m.repeats > 0 && LinesCounted(parse, CallRepeated(parse, m).0, t, ends)
    requires CallRepeated(parse, m).1.Delay?
    ensures LinesCounted(parse, m, t, ends)
  {
  }

  lemma {:induction false} FreshCounts(parse: Parser, m: Machine, t: Machine, ends: bool)
    requires m.repeats == 0 && m.lineCur + |Lines(m.unread)| < 65536
    requires var (next, result) := CallFresh(parse, m);
             && result.Delay? && (next.repeats > 0 ==> parse(next.prev) != Bad)
             && LinesCounted(parse, next, t, ends)
    ensures LinesCounted(parse, m, t, ends)
  {
    var next, lines := CallFresh(parse, m).0, Lines(m.unread);
    assert Lines(next.unread) == lines[1..] && next.line == lines[0] && next.lineCur == m.lineCur + 1;
    assert !ends && t.errorLine > next.lineCur ==>
             lines[1..][t.errorLine - next.lineCur - 1] == lines[t.errorLine - m.lineCur - 1];
  }

  /**
   The line counter counts lines read, not calls.  A failure is blamed on the
   line that fails; a left-over line that fails when repeated by the first line
   is blamed on the line before the first.
   */
  lemma {:induction false} CounterCountsLines(parse: Parser, m: Machine)
    requires !WillStick(parse, m) && m.lineCur + |Lines(m.unread)| < 65536
    requires m.repeats > 0 ==> parse(m.prev) != Bad
    ensures var (t, ends) := Execute(parse, m); LinesCounted(parse, m, t, ends)
    decreases |m.unread|, m.repeats
  {
    var (t, result) := Call(parse, m);
    if result.Delay? {
      FreeGoesOn(parse, m);
      var (after, ends) := Execute(parse, t);
      if m.repeats > 0 {
        CounterCountsLines(parse, t);
        RepeatCounts(parse, m, after, ends);
      } else if t.repeats > 0 && parse(t.prev) == Bad {
        BadRepeatFails(parse, m);
      } else {
        assert Lines(t.unread) == Lines(m.unread)[1..];
        CounterCountsLines(parse, t);
        FreshCounts(parse, m, after, ends);
      }
    }
  }

  /** A left-over line that fails is repeated by the first line, which is counted before the failure. */
  lemma {:induction false} BadRepeatFails(parse: Parser, m: Machine)
    requires !WillStick(parse, m) && m.lineCur + |Lines(m.unread)| < 65536 && m.repeats == 0
    requires var (t, result) := CallFresh(parse, m); result.Delay? && t.repeats > 0 && parse(t.prev) == Bad
    ensures var (t, ends) := Execute(parse, m); LinesCounted(parse, m, t, ends)
  {
    var t, lines := CallFresh(parse, m).0, Lines(m.unread);
    assert Lines(t.unread) == lines[1..] && t.line == lines[0];
    assert !Call(parse, t).1.Delay?;
  }
}
