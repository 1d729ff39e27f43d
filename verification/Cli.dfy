/** The command line: its buffer, the registered commands, and the loops over both. */
module CliService {
  import opened CliCompletion

  class Cli {
    var line: string
    var cursorPosition: nat
    var commands: set<string>

    constructor ()
      ensures line == "" && cursorPosition == 0 && commands == {}
    {
      line, cursorPosition, commands := "", 0, {};
    }

    method NormalizeLine()
      modifies this`line, this`cursorPosition
      ensures line == Trim(old(line)) && cursorPosition == |line|
    {
      line := Trim(line);
      cursorPosition := |line|;
    }

    /** The part two names have in common, found by comparing character by character. */
    method CutToCommon(key: string, common: string) returns (cut: string)
      ensures cut == CommonPrefix(common, key)
    {
      var minSize := if |key| > |common| then |common| else |key|;
      var i := 0;
      while i < minSize && key[i] == common[i]
        invariant i <= minSize && common[..i] == key[..i]
      {
        assert common[..i + 1] == common[..i] + [common[i]] && key[..i + 1] == key[..i] + [key[i]];
        i := i + 1;
      }
      CommonPrefixAt(common, key, i);
      cut := common[..i];
    }

    /** The fold over the commands, in whatever order the tree gives them: "" stands for no match yet. */
    method CommonBase() returns (common: string)
      requires line != ""
      ensures Base(common, commands, line)
    {
      common := "";
      var left := commands;
      ghost var seen := {};
      while left != {}
        invariant seen + left == commands && seen !! left
        invariant Base(common, seen, line)
        decreases |left|
      {
        var key :| key in left;
        BaseJoins(common, seen, line, key);
        if line <= key {
          if |common| > 0 {
            common := CutToCommon(key, common);
          } else {
            common := key;
          }
        }
        seen, left := seen + {key}, left - {key};
      }
      assert seen == commands;
    }

    /** TAB: the line becomes the longest common prefix of the commands it starts, if any. */
    method HandleAutocomplete()
      modifies this`line, this`cursorPosition
      ensures cursorPosition == |line|
      ensures Trim(old(line)) == "" ==> line == ""
      ensures Trim(old(line)) != "" ==> Completes(commands, Trim(old(line)), line)
    {
      NormalizeLine();
      if |line| == 0 {
        return;
      }
      var common := CommonBase();
      if |common| > |line| {
        line := common;
        cursorPosition := |line|;
      }
    }

    /** Registers a command under its trimmed name with spaces replaced one at a time, as often as one is found. */
    method AddCommand(name: string)
      modifies this`commands
      ensures commands == old(commands) + {Underscored(Trim(name))}
    {
      var nameStr := Trim(name);
      var next := 0;
      while next < |nameStr|
        invariant next <= |nameStr| == |Trim(name)| && commands == old(commands)
        invariant forall i :: 0 <= i < next ==> nameStr[i] == Underscored(Trim(name))[i]
        invariant forall i :: next <= i < |nameStr| ==> nameStr[i] == Trim(name)[i]
      {
        var found := FindSpace(nameStr, next);
        if found < |nameStr| {
          nameStr := nameStr[found := '_'];
          next := found + 1;
        } else {
          next := found;
        }
      }
      assert nameStr == Underscored(Trim(name));
      commands := commands + {nameStr};
    }

    method FindSpace(s: string, from: nat) returns (at: nat)
      requires from <= |s|
      ensures from <= at <= |s| && (at < |s| ==> s[at] == ' ') && forall i :: from <= i < at ==> s[i] != ' '
    {
      at := from;
      while at < |s| && s[at] != ' '
        invariant from <= at <= |s| && forall i :: from <= i < at ==> s[i] != ' '
      {
        at := at + 1;
      }
    }
  }
}
