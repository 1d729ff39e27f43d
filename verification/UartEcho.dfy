/** The six-row screen: row cells rotated in place, showing the last rows of the log. */
module UartEcho {
  import opened UartLog

  const LINES_ON_SCREEN: nat := 6

  class ListElement {
    var text: string

    constructor ()
      ensures text == ""
    {
      text := "";
    }
  }

  /** The rows of a screen whose cursor is on row `line`: the last rows of the log, then empty ones. */
  function Window(lines: seq<string>, line: nat, row: nat): string
    requires line < |lines|
  {
    if row <= line then lines[|lines| - 1 - line + row] else ""
  }

  /** A new line below the cursor leaves the rows above it alone. */
  lemma {:induction false} WindowGrows(lines: seq<string>, line: nat, row: nat)
    requires line < |lines|
    ensures Window(lines + [""], line + 1, row) == if row <= line then Window(lines, line, row) else ""
  {
  }

  /** With the cursor on the bottom row, a new line moves every row up. */
  lemma {:induction false} WindowScrolls(lines: seq<string>, line: nat, row: nat)
    requires line < |lines|
    ensures Window(lines + [""], line, row) == if row < line then Window(lines, line, row + 1) else ""
  {
  }

  class UartDumpModel {
    const list: array<ListElement>
    var line: nat
    var lastChar: char
    var escape: bool
    ghost var cells: set<ListElement>
    ghost var log: Log

    /** The row pointers are a permutation of the allocated cells. */
    ghost predicate Permuted()
      reads this, list
    {
      && list.Length == LINES_ON_SCREEN
      && (forall i :: 0 <= i < LINES_ON_SCREEN ==> list[i] in cells)
      && (forall i, j :: 0 <= i < j < LINES_ON_SCREEN ==> list[i] != list[j])
      && (forall c | c in cells :: c in list[..])
    }

    /** The cursor is on the last line of the log, on the bottom row once the log has six lines. */
    ghost predicate CursorFits()
      reads this
    {
      line < LINES_ON_SCREEN && line < |log.lines| && (line == LINES_ON_SCREEN - 1 || line + 1 == |log.lines|)
    }

    ghost predicate Valid()
      reads this, list, cells
    {
      && Permuted() && CursorFits()
      && lastChar == log.lastChar && escape == log.escape
      && forall i :: 0 <= i < LINES_ON_SCREEN ==> list[i].text == Window(log.lines, line, i)
    }

    constructor (lastChar: char)
      ensures Valid() && log == Opened(lastChar) && fresh(cells) && fresh(list)
    {
      var blank := new ListElement();
      list := new ListElement[LINES_ON_SCREEN](_ => blank);
      line, this.lastChar, escape := 0, lastChar, false;
      cells, log := {}, Opened(lastChar);
      new;
      for i := 0 to LINES_ON_SCREEN
        invariant fresh(cells) && fresh(list) && list.Length == LINES_ON_SCREEN
        invariant line == 0 && this.lastChar == lastChar && !escape && log == Opened(lastChar)
        invariant forall k :: 0 <= k < i ==> list[k] in cells && list[k].text == ""
        invariant forall j, k :: 0 <= j < k < i ==> list[j] != list[k]
        invariant forall c | c in cells :: c in list[..i]
      {
        ghost var done := list[..i];
        var cell := new ListElement();
        list[i] := cell;
        cells := cells + {cell};
        assert list[..i] == done && list[..i + 1] == done + [cell];
      }
      assert list[..LINES_ON_SCREEN] == list[..];
    }

    /** The top row's cell goes to the bottom, the others move up. */
    method Rotate()
      requires Permuted()
      modifies list
      ensures Permuted()
      ensures forall i :: 0 <= i < LINES_ON_SCREEN - 1 ==> list[i] == old(list[i + 1])
      ensures list[LINES_ON_SCREEN - 1] == old(list[0])
    {
      ghost var was := list[..];
      var first := list[0];
      for i := 1 to LINES_ON_SCREEN
        invariant forall k :: 0 <= k < i - 1 ==> list[k] == was[k + 1]
        invariant forall k :: i - 1 <= k < LINES_ON_SCREEN ==> list[k] == was[k]
      {
        list[i - 1] := list[i];
      }
      list[LINES_ON_SCREEN - 1] := first;
      assert list[..] == was[1..] + [was[0]];
    }

    /** Starts a line: the next row, or the bottom one after the screen has scrolled. */
    method NewLine()
      requires Valid()
      modifies this`line, this`log, list, cells
      ensures Valid() && log == old(log).(lines := old(log).lines + [""])
    {
      forall row: nat
        ensures Window(log.lines + [""], line + 1, row) == if row <= line then Window(log.lines, line, row) else ""
        ensures Window(log.lines + [""], line, row) == if row < line then Window(log.lines, line, row + 1) else ""
      {
        WindowGrows(log.lines, line, row);
        WindowScrolls(log.lines, line, row);
      }
      if line + 1 < LINES_ON_SCREEN {
        line := line + 1;
      } else {
        var first := list[0];
        Rotate();
        first.text := "";
      }
      log := log.(lines := log.lines + [""]);
    }

    method Append(c: char)
      requires Valid()
      modifies this`log, cells
      ensures Valid()
      ensures var last := |old(log).lines| - 1;
              log == old(log).(lines := old(log).lines[last := old(log).lines[last] + [c]])
    {
      list[line].text := list[line].text + [c];
      ghost var last := |log.lines| - 1;
      log := log.(lines := log.lines[last := log.lines[last] + [c]]);
    }

    /** Pushing a character scrolls the window exactly as the log grows. */
    method PushToList(data: char)
      requires Valid()
      modifies this`line, this`lastChar, this`escape, this`log, list, cells
      ensures Valid() && log == Push(old(log), data)
    {
      if escape {
        if Letter(data) {
          escape := false;
        }
      } else if data == '[' && lastChar == ESC {
        escape := true;
      } else if Printable(data) || LineBreak(data) {
        var newStringNeeded := false;
        if |list[line].text| >= COLUMNS_ON_SCREEN {
          newStringNeeded := true;
        } else if LineBreak(data) {
          if !LineBreak(lastChar) {
            newStringNeeded := true;
          }
        }
        if newStringNeeded {
          NewLine();
        }
        if !LineBreak(data) {
          Append(data);
        }
      }
      lastChar := data;
      log := log.(escape := escape, lastChar := data);
    }

    /** After any input the screen is the window on the log of that input. */
    method Receive(data: string, ghost start: char, ghost seen: string)
      requires Valid() && log == Run(start, seen)
      modifies this`line, this`lastChar, this`escape, this`log, list, cells
      ensures Valid() && log == Run(start, seen + data)
    {
      assert seen + data[..0] == seen;
      for i := 0 to |data|
        invariant Valid() && log == Run(start, seen + data[..i])
      {
        PushToList(data[i]);
        assert (seen + data[..i + 1])[..|seen| + i] == seen + data[..i];
      }
      assert data[..|data|] == data;
    }
  }
}
