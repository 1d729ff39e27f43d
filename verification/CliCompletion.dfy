/** Command names and their completion, as functions and relations on strings. */
module CliCompletion {
  predicate Space(c: char) {
    c == ' ' || c == '\n' || c == '\r' || c == '\t'
  }

  function TrimRight(s: string): (t: string)
    ensures t <= s && (t != "" ==> !Space(t[|t| - 1]))
  {
    if s != "" && Space(s[|s| - 1]) then TrimRight(s[..|s| - 1]) else s
  }

  function TrimLeft(s: string): (t: string)
    ensures |t| <= |s| && (t != "" ==> !Space(t[0]))
    ensures t != "" ==> t[|t| - 1] == s[|s| - 1]
    ensures s != "" && !Space(s[0]) ==> t == s
  {
    if s != "" && Space(s[0]) then TrimLeft(s[1..]) else s
  }

  function Trim(s: string): string {
    TrimLeft(TrimRight(s))
  }

  predicate Trimmed(s: string) {
    s != "" ==> !Space(s[0]) && !Space(s[|s| - 1])
  }

  lemma {:induction false} TrimTrims(s: string)
    ensures Trimmed(Trim(s)) && (Trimmed(s) ==> Trim(s) == s)
  {
  }

  predicate AllSpace(s: string) {
    forall c | c in s :: Space(c)
  }

  /** Trimming cuts spaces from both ends and nothing else. */
  lemma {:induction false} TrimCuts(s: string) returns (front: string, back: string)
    ensures s == front + Trim(s) + back && AllSpace(front) && AllSpace(back) && Trimmed(Trim(s))
  {
    back := RightCuts(s);
    front := LeftCuts(TrimRight(s));
    assert front + TrimLeft(TrimRight(s)) + back == TrimRight(s) + back;
  }

  lemma {:induction false} RightCuts(s: string) returns (back: string)
    ensures s == TrimRight(s) + back && AllSpace(back)
  {
    back := "";
    if s != "" && Space(s[|s| - 1]) {
      back := RightCuts(s[..|s| - 1]);
      assert s == TrimRight(s) + (back + [s[|s| - 1]]);
      back := back + [s[|s| - 1]];
    }
  }

  lemma {:induction false} LeftCuts(s: string) returns (front: string)
    ensures s == front + TrimLeft(s) && AllSpace(front)
  {
    var k := LeftCutsAt(s);
    front := s[..k];
  }

  lemma {:induction false} LeftCutsAt(s: string) returns (k: nat)
    ensures k <= |s| && TrimLeft(s) == s[k..] && AllSpace(s[..k])
  {
    k := 0;
    if s != "" && Space(s[0]) {
      k := LeftCutsAt(s[1..]);
      assert s[1..][k..] == s[k + 1..] && s[..k + 1] == [s[0]] + s[1..][..k];
      k := k + 1;
    }
  }

  lemma {:induction false} TrimRightKeeps(s: string, front: string)
    requires front <= s && front != "" && !Space(front[|front| - 1])
    ensures front <= TrimRight(s)
  {
    if Space(s[|s| - 1]) {
      assert front <= s[..|s| - 1];
      TrimRightKeeps(s[..|s| - 1], front);
    }
  }

  /** Trimming a string that extends a trimmed one cuts it no shorter than that one. */
  lemma {:induction false} TrimKeeps(s: string, front: string)
    requires front <= s && front != "" && Trimmed(front)
    ensures front <= Trim(s) <= s
  {
    TrimRightKeeps(s, front);
    assert s[0] == front[0] == TrimRight(s)[0];
  }

  // ----- the longest common prefix -----

  function CommonPrefix(a: string, b: string): (p: string)
    ensures p <= a && p <= b
  {
    if a == "" || b == "" || a[0] != b[0] then "" else [a[0]] + CommonPrefix(a[1..], b[1..])
  }

  lemma {:induction false} CommonPrefixIsLongest(a: string, b: string, p: string)
    ensures p <= CommonPrefix(a, b) <==> p <= a && p <= b
  {
    if p != "" && p <= a && p <= b {
      CommonPrefixIsLongest(a[1..], b[1..], p[1..]);
      assert p == [a[0]] + p[1..];
    }
  }

  /** Two strings agree up to `i` and no further. */
  lemma {:induction false} CommonPrefixAt(a: string, b: string, i: nat)
    requires i <= |a| && i <= |b| && a[..i] == b[..i]
    requires i == |a| || i == |b| || a[i] != b[i]
    ensures CommonPrefix(a, b) == a[..i]
  {
    if i > 0 {
      assert a[0] == a[..i][0] == b[..i][0] == b[0];
      assert a[1..][..i - 1] == a[..i][1..] && b[1..][..i - 1] == b[..i][1..];
      CommonPrefixAt(a[1..], b[1..], i - 1);
      assert a[..i] == [a[0]] + a[1..][..i - 1];
    }
  }

  ghost predicate StartsAll(p: string, names: set<string>) {
    forall name | name in names :: p <= name
  }

  /** The prefixes all names share are exactly the prefixes of `common`. */
  ghost predicate IsLongest(common: string, names: set<string>) {
    forall p: string :: StartsAll(p, names) <==> p <= common
  }

  ghost function Matches(names: set<string>, line: string): set<string> {
    set name | name in names && line <= name
  }

  lemma {:induction false} LongestOfOne(name: string)
    ensures IsLongest(name, {name})
  {
    forall p: string
      ensures StartsAll(p, {name}) <==> p <= name
    {
    }
  }

  lemma {:induction false} LongestOfMore(common: string, names: set<string>, name: string)
    requires IsLongest(common, names)
    ensures IsLongest(CommonPrefix(common, name), names + {name})
  {
    forall p: string
      ensures StartsAll(p, names + {name}) <==> p <= CommonPrefix(common, name)
    {
      CommonPrefixIsLongest(common, name, p);
      assert StartsAll(p, names + {name}) <==> StartsAll(p, names) && p <= name;
    }
  }

  lemma {:induction false} LongestIsUnique(a: string, b: string, names: set<string>)
    requires IsLongest(a, names) && IsLongest(b, names)
    ensures a == b
  {
    assert a <= a && b <= b;
    assert StartsAll(a, names) && StartsAll(b, names);
    assert a <= b && b <= a;
  }

  /** Where the fold over the names stands: "" for no match yet, else the longest common prefix of the matches. */
  ghost predicate Base(common: string, names: set<string>, line: string) {
    if Matches(names, line) == {} then common == "" else IsLongest(common, Matches(names, line)) && line <= common
  }

  /** One more name joins the fold; with a line to complete, "" can only mean no match yet. */
  lemma {:induction false} BaseJoins(common: string, names: set<string>, line: string, name: string)
    requires line != "" && Base(common, names, line)
    ensures !(line <= name) ==> Base(common, names + {name}, line)
    ensures line <= name && common == "" ==> Base(name, names + {name}, line)
    ensures line <= name && common != "" ==> Base(CommonPrefix(common, name), names + {name}, line)
  {
    if line <= name {
      assert Matches(names + {name}, line) == Matches(names, line) + {name};
      if common == "" {
        assert Matches(names, line) + {name} == {name};
        LongestOfOne(name);
      } else {
        LongestOfMore(common, Matches(names, line), name);
        CommonPrefixIsLongest(common, name, line);
      }
    } else {
      assert Matches(names + {name}, line) == Matches(names, line);
    }
  }

  /** `after` is what completing the trimmed line `line` must give. */
  ghost predicate Completes(names: set<string>, line: string, after: string) {
    if Matches(names, line) == {} then after == line else IsLongest(after, Matches(names, line))
  }

  /** Completion is a function: it extends the line and loses no candidate. */
  lemma {:induction false} CompletionKeepsMatches(names: set<string>, line: string, after: string)
    requires Completes(names, line, after)
    ensures line <= after && Matches(names, after) == Matches(names, line)
  {
    if Matches(names, line) != {} {
      assert StartsAll(line, Matches(names, line));
      assert after <= after && StartsAll(after, Matches(names, line));
      forall name
        ensures name in Matches(names, after) <==> name in Matches(names, line)
      {
      }
    }
  }

  /** Pressing TAB again, trimming included, changes nothing. */
  lemma {:induction false} CompletionIsIdempotent(names: set<string>, line: string, once: string, twice: string)
    requires line != "" && Trimmed(line) && Completes(names, line, once) && Completes(names, Trim(once), twice)
    ensures twice == once
  {
    TrimTrims(line);
    CompletionKeepsMatches(names, line, once);
    TrimKeeps(once, line);
    forall name
      ensures name in Matches(names, Trim(once)) <==> name in Matches(names, line)
    {
      assert name in Matches(names, once) <==> name in Matches(names, line);
    }
    assert Matches(names, Trim(once)) == Matches(names, line);
    if Matches(names, line) != {} {
      LongestIsUnique(once, twice, Matches(names, line));
    }
  }

  // ----- registered names -----

  function Underscored(s: string): (t: string)
    ensures |t| == |s|
    ensures forall i :: 0 <= i < |s| ==> t[i] == if s[i] == ' ' then '_' else s[i]
  {
    seq(|s|, i requires 0 <= i < |s| => if s[i] == ' ' then '_' else s[i])
  }

  /** The first word of a line, as `cli_handle_enter` cuts it. */
  function FirstWord(line: string): (word: string)
    ensures word <= line
  {
    if line == "" || line[0] == ' ' then "" else [line[0]] + FirstWord(line[1..])
  }

  /** The first word goes up to the first space of the line. */
  lemma {:induction false} WordExactly(line: string)
    ensures var n := |FirstWord(line)|; ' ' !in line[..n] && (n < |line| ==> line[n] == ' ')
  {
    if line != "" && line[0] != ' ' {
      WordExactly(line[1..]);
      var n := |FirstWord(line)|;
      assert line[..n] == [line[0]] + line[1..][..n - 1];
    }
  }

  /** Entering the line looks up `key`: the first word of the trimmed line, unless nothing is left of it. */
  predicate LooksUp(line: string, key: string) {
    Trim(line) != "" && FirstWord(Trim(line)) == key
  }

  /** Every name but a blank one can be called: typed alone or before arguments, it is the word looked up. */
  lemma {:induction false} NameIsCallable(name: string, arguments: string)
    requires Trim(name) != ""
    ensures var key := Underscored(Trim(name)); LooksUp(key, key) && LooksUp(key + " " + arguments, key)
  {
    TrimTrims(name);
    var key := Underscored(Trim(name));
    assert key + "" == key;
    KeyIsLookedUp(key, "");
    KeyIsLookedUp(key, " " + arguments);
    assert key + (" " + arguments) == key + " " + arguments;
  }

  lemma {:induction false} KeyIsLookedUp(key: string, rest: string)
    requires key != "" && Trimmed(key) && ' ' !in key && (rest == "" || rest[0] == ' ')
    ensures LooksUp(key + rest, key)
  {
    TrimKeeps(key + rest, key);
    var line := Trim(key + rest);
    assert line == key + line[|key|..] && line[|key|..] <= rest;
    WordStops(key, line[|key|..]);
  }

  /** Some line calls a registered name exactly when it is not blank. */
  lemma {:induction false} CallableExactlyWhen(name: string)
    ensures (exists line :: LooksUp(line, Underscored(Trim(name)))) <==> Trim(name) != ""
  {
    if Trim(name) != "" {
      NameIsCallable(name, "");
    } else {
      forall line
        ensures !LooksUp(line, "")
      {
        TrimTrims(line);
      }
    }
  }

  lemma {:induction false} WordStops(word: string, rest: string)
    requires ' ' !in word && (rest == "" || rest[0] == ' ')
    ensures FirstWord(word + rest) == word
  {
    if word != "" {
      assert (word + rest)[1..] == word[1..] + rest;
      WordStops(word[1..], rest);
    }
  }
}
