/** The executable lines of a stage's shell script: `_shell_commands` in
    `scripts/controls.py`. */
module ShellScript {
  import opened Sequences
  import opened Text

  /** `text.split()`: the words still to come, `word` being the one under way. */
  function Words(s: string, word: string): seq<string> {
    if s == "" then Finished(word)
    else if IsSpace(s[0]) then Finished(word) + Words(s[1..], "")
    else Words(s[1..], word + [s[0]])
  }

  function Finished(word: string): seq<string> {
    if word == "" then [] else [word]
  }

  /** `" ".join(text.split())`. */
  function Normalise(text: string): string {
    Join(" ", Words(text, ""))
  }

  predicate Continues(line: string) {
    line != "" && line[|line| - 1] == '\\'
  }

  predicate IsComment(line: string) {
    line != "" && line[0] == '#'
  }

  /** A pending command and what continues it. */
  function Glue(pending: string, more: string): string {
    Trim(pending + " " + more)
  }

  /** The commands the remaining lines give when `pending` is waiting to be continued. */
  function Commands(lines: seq<string>, pending: string): seq<string> {
    if lines == [] then
      if pending != "" then [Normalise(pending)] else []
    else
      var line := Trim(lines[0]);
      if pending == "" && (line == "" || IsComment(line)) then Commands(lines[1..], "")
      else if Continues(line) then Commands(lines[1..], Glue(pending, line[..|line| - 1]))
      else
        var whole := if pending != "" then Glue(pending, line) else line;
        if whole == "" || IsComment(whole) then Commands(lines[1..], "")
        else [Normalise(whole)] + Commands(lines[1..], "")
  }

  /** `_shell_commands`, over the lines `splitlines` gave. */
  method ShellCommands(lines: seq<string>) returns (commands: seq<string>)
    ensures commands == Commands(lines, "")
  {
    commands := [];
    var pending := "";
    assert lines[0..] == lines;
    for i := 0 to |lines|
      invariant commands + Commands(lines[i..], pending) == Commands(lines, "")
    {
      var line := Trim(lines[i]);
      assert lines[i..][1..] == lines[i + 1..];
      if pending == "" && (line == "" || IsComment(line)) {
        continue;
      }
      if Continues(line) {
        pending := Glue(pending, line[..|line| - 1]);
        continue;
      }
      if pending != "" {
        line := Glue(pending, line);
        pending := "";
      }
      if line == "" || IsComment(line) {
        continue;
      }
      commands := commands + [Normalise(line)];
    }
    assert lines[|lines|..] == [];
    if pending != "" {
      commands := commands + [Normalise(pending)];
    }
  }

  // ---------------------------------------------------------------------
  // Words
  // ---------------------------------------------------------------------

  predicate IsWord(w: string) {
    w != "" && forall i :: 0 <= i < |w| ==> !IsSpace(w[i])
  }

  lemma {:induction false} WordsAreWords(s: string, word: string)
    requires word == "" || IsWord(word)
    ensures forall w :: w in Words(s, word) ==> IsWord(w)
    decreases |s|
  {
    if s != "" {
      WordsAreWords(s[1..], if IsSpace(s[0]) then "" else word + [s[0]]);
    }
  }

  /** White space separates: the words on its two sides are read on their own. */
  lemma {:induction false} WordsSeparate(a: string, space: char, b: string, word: string)
    requires IsSpace(space)
    ensures Words(a + [space] + b, word) == Words(a, word) + Words(b, "")
    decreases |a|
  {
    var s := a + [space] + b;
    if a == "" {
      assert s[1..] == b;
    } else {
      assert s[1..] == a[1..] + [space] + b;
      WordsSeparate(a[1..], space, b, if IsSpace(a[0]) then "" else word + [a[0]]);
    }
  }

  lemma {:induction false} TrimStartKeepsWords(s: string)
    ensures Words(TrimStart(s), "") == Words(s, "")
  {
    if s != "" && IsSpace(s[0]) {
      TrimStartKeepsWords(s[1..]);
    }
  }

  lemma {:induction false} TrimEndKeepsWords(s: string)
    ensures Words(TrimEnd(s), "") == Words(s, "")
  {
    if s != "" && IsSpace(s[|s| - 1]) {
      var front := s[..|s| - 1];
      TrimEndKeepsWords(front);
      WordsSeparate(front, s[|s| - 1], "", "");
      assert front + [s[|s| - 1]] + "" == s;
    }
  }

  lemma TrimKeepsWords(s: string)
    ensures Words(Trim(s), "") == Words(s, "")
  {
    TrimStartKeepsWords(s);
    TrimEndKeepsWords(TrimStart(s));
  }

  lemma {:induction false} TrimEndKeepsHead(s: string)
    requires s != "" && !IsSpace(s[0])
    ensures TrimEnd(s) != "" && TrimEnd(s)[0] == s[0]
  {
    if IsSpace(s[|s| - 1]) {
      TrimEndKeepsHead(s[..|s| - 1]);
    }
  }

  lemma {:induction false} OneWord(a: string, b: string, word: string)
    requires forall i :: 0 <= i < |a| ==> !IsSpace(a[i])
    requires b == "" || IsSpace(b[0])
    ensures Words(a + b, word) == Finished(word + a) + Words(b, "")
    decreases |a|
  {
    if a == "" {
      assert a + b == b && word + a == word;
    } else {
      assert (a + b)[1..] == a[1..] + b;
      assert word + [a[0]] + a[1..] == word + a;
      OneWord(a[1..], b, word + [a[0]]);
    }
  }

  lemma {:induction false} JoinedWordsReadBack(words: seq<string>)
    requires forall w :: w in words ==> IsWord(w)
    ensures Words(Join(" ", words), "") == words
  {
    if |words| == 1 {
      assert IsWord(words[0]);
      OneWord(words[0], "", "");
      assert words[0] + "" == words[0] && "" + words[0] == words[0];
    } else if |words| > 1 {
      var tail := " " + Join(" ", words[1..]);
      JoinedWordsReadBack(words[1..]);
      assert IsWord(words[0]);
      OneWord(words[0], tail, "");
      assert tail[1..] == Join(" ", words[1..]);
      assert words[0] + " " + Join(" ", words[1..]) == words[0] + tail;
      assert "" + words[0] == words[0];
    }
  }

  /** Normalising twice is normalising once. */
  lemma NormaliseIdempotent(text: string)
    ensures Normalise(Normalise(text)) == Normalise(text)
  {
    WordsAreWords(text, "");
    JoinedWordsReadBack(Words(text, ""));
  }

  /** The first word of a text that starts with a character to read starts with it. */
  lemma {:induction false} FirstWordKeepsHead(s: string, word: string)
    requires word != "" || (s != "" && !IsSpace(s[0]))
    ensures Words(s, word) != [] && Words(s, word)[0] != ""
    ensures Words(s, word)[0][0] == (word + s)[0]
    decreases |s|
  {
    if s != "" && !IsSpace(s[0]) {
      assert word + [s[0]] + s[1..] == word + s;
      FirstWordKeepsHead(s[1..], word + [s[0]]);
    }
  }

  lemma NormaliseKeepsHead(s: string)
    requires s != "" && !IsSpace(s[0])
    ensures Normalise(s) != "" && Normalise(s)[0] == s[0]
  {
    FirstWordKeepsHead(s, "");
    assert "" + s == s;
  }

  // ---------------------------------------------------------------------
  // What every script's commands are
  // ---------------------------------------------------------------------

  /** Text that reads as a command: it starts with neither white space nor `#`. */
  predicate Executable(s: string) {
    s != "" && !IsSpace(s[0]) && s[0] != '#'
  }

  lemma PendingStaysExecutable(pending: string, more: string)
    requires Executable(pending)
    ensures Executable(Glue(pending, more))
  {
    var s := pending + " " + more;
    assert TrimStart(s) == s;
    TrimEndKeepsHead(s);
  }

  lemma GlueToNothing(more: string)
    ensures Glue("", more) == Trim(more)
  {
    var s := "" + " " + more;
    assert s[0] == ' ' && s[1..] == more;
  }

  /** What a first continued line leaves pending: nothing, or a command's beginning. */
  lemma FirstPending(line: string)
    requires Continues(line) && !IsSpace(line[0]) && !IsComment(line)
    ensures Glue("", line[..|line| - 1]) == "" || Executable(Glue("", line[..|line| - 1]))
  {
    var body := line[..|line| - 1];
    GlueToNothing(body);
    if body != "" {
      TrimEndKeepsHead(body);
    }
  }

  /** No comment is ever taken for a command, continued or unfinished, and every
      command is a single normalised line. */
  lemma {:induction false} CommandsAreExecutable(lines: seq<string>, pending: string)
    requires pending == "" || Executable(pending)
    ensures forall c :: c in Commands(lines, pending) ==> Executable(c) && Normalise(c) == c
    decreases |lines|
  {
    if lines == [] {
      if pending != "" {
        NormaliseKeepsHead(pending);
        NormaliseIdempotent(pending);
      }
    } else {
      var line := Trim(lines[0]);
      TrimEnds(lines[0]);
      if pending == "" && (line == "" || IsComment(line)) {
        CommandsAreExecutable(lines[1..], "");
      } else if Continues(line) {
        if pending == "" {
          FirstPending(line);
        } else {
          PendingStaysExecutable(pending, line[..|line| - 1]);
        }
        CommandsAreExecutable(lines[1..], Glue(pending, line[..|line| - 1]));
      } else {
        var whole := if pending != "" then Glue(pending, line) else line;
        if pending != "" {
          PendingStaysExecutable(pending, line);
        }
        NormaliseKeepsHead(whole);
        NormaliseIdempotent(whole);
        CommandsAreExecutable(lines[1..], "");
      }
    }
  }

  // ---------------------------------------------------------------------
  // Layout does not matter
  // ---------------------------------------------------------------------

  /** A stretch of a script: a line that runs nothing, or one command laid out over
      one line or several. */
  datatype Stretch = Idle(line: string) | Logical(lines: seq<string>)

  function Fragment(line: string): string {
    var t := Trim(line);
    if Continues(t) then t[..|t| - 1] else t
  }

  predicate WellLaid(lines: seq<string>) {
    && lines != []
    && (forall i :: 0 <= i < |lines| - 1 ==> Continues(Trim(lines[i])))
    && !Continues(Trim(lines[|lines| - 1]))
  }

  predicate Valid(s: Stretch) {
    match s
    case Idle(line) => Trim(line) == "" || IsComment(Trim(line))
    case Logical(lines) => WellLaid(lines) && Executable(Fragment(lines[0]))
  }

  function Script(stretches: seq<Stretch>): seq<string> {
    if stretches == [] then []
    else (match stretches[0] case Idle(line) => [line] case Logical(lines) => lines) + Script(stretches[1..])
  }

  /** The words of a command, in order, whatever lines they stand on. */
  function AllWords(lines: seq<string>): seq<string> {
    if lines == [] then [] else Words(Fragment(lines[0]), "") + AllWords(lines[1..])
  }

  function Intended(stretches: seq<Stretch>): seq<string> {
    if stretches == [] then []
    else
      (match stretches[0] case Idle(_) => [] case Logical(lines) => [Join(" ", AllWords(lines))])
      + Intended(stretches[1..])
  }

  lemma ContinuedWords(pending: string, more: string)
    ensures Words(Glue(pending, more), "") == Words(pending, "") + Words(more, "")
  {
    TrimKeepsWords(pending + " " + more);
    WordsSeparate(pending, ' ', more, "");
  }

  lemma LoneWords(line: string)
    ensures AllWords([line]) == Words(Fragment(line), "")
  {
    assert AllWords([line]) == Words(Fragment(line), "") + AllWords([line][1..]);
  }

  lemma LastLine(line: string, rest: seq<string>, pending: string)
    requires Executable(pending) && !Continues(Trim(line))
    ensures Commands([line] + rest, pending)
            == [Join(" ", Words(pending, "") + Words(Fragment(line), ""))] + Commands(rest, "")
  {
    assert ([line] + rest)[1..] == rest;
    ContinuedWords(pending, Fragment(line));
    PendingStaysExecutable(pending, Fragment(line));
  }

  lemma NotLastLine(line: string, rest: seq<string>, pending: string)
    requires Executable(pending) && Continues(Trim(line))
    ensures Commands([line] + rest, pending) == Commands(rest, Glue(pending, Fragment(line)))
  {
    assert ([line] + rest)[1..] == rest;
  }

  lemma {:induction false} ContinuationsJoin(lines: seq<string>, rest: seq<string>, pending: string)
    requires WellLaid(lines)
    requires Executable(pending)
    ensures Commands(lines + rest, pending)
            == [Join(" ", Words(pending, "") + AllWords(lines))] + Commands(rest, "")
    decreases |lines|
  {
    var more := Fragment(lines[0]);
    if |lines| == 1 {
      assert lines == [lines[0]];
      LastLine(lines[0], rest, pending);
      LoneWords(lines[0]);
    } else {
      assert Continues(Trim(lines[0]));
      assert lines + rest == [lines[0]] + (lines[1..] + rest);
      NotLastLine(lines[0], lines[1..] + rest, pending);
      ContinuedWords(pending, more);
      PendingStaysExecutable(pending, more);
      ContinuationsJoin(lines[1..], rest, Glue(pending, more));
      Associate(Words(pending, ""), Words(more, ""), AllWords(lines[1..]));
    }
  }

  lemma OnlyLine(line: string, rest: seq<string>)
    requires !Continues(Trim(line)) && Executable(Trim(line))
    ensures Commands([line] + rest, "") == [Normalise(Trim(line))] + Commands(rest, "")
  {
    assert ([line] + rest)[1..] == rest;
  }

  lemma FirstOfSeveral(line: string, rest: seq<string>)
    requires Continues(Trim(line)) && Executable(Fragment(line))
    ensures Commands([line] + rest, "") == Commands(rest, Glue("", Fragment(line)))
    ensures Executable(Glue("", Fragment(line)))
  {
    assert ([line] + rest)[1..] == rest;
    GlueToNothing(Fragment(line));
    TrimEndKeepsHead(Fragment(line));
  }

  lemma OneCommand(lines: seq<string>, rest: seq<string>)
    requires WellLaid(lines) && Executable(Fragment(lines[0]))
    ensures Commands(lines + rest, "") == [Join(" ", AllWords(lines))] + Commands(rest, "")
  {
    var more := Fragment(lines[0]);
    if |lines| == 1 {
      assert lines == [lines[0]];
      OnlyLine(lines[0], rest);
      LoneWords(lines[0]);
    } else {
      assert Continues(Trim(lines[0]));
      assert lines + rest == [lines[0]] + (lines[1..] + rest);
      FirstOfSeveral(lines[0], lines[1..] + rest);
      ContinuedWords("", more);
      ContinuationsJoin(lines[1..], rest, Glue("", more));
      assert Words("", "") + Words(more, "") == Words(more, "");
    }
  }

  /** Comments and blank lines dropped, continuations joined: a script gives its
      commands, word for word and in order, however each is spread over lines. */
  lemma {:induction false} LayoutDoesNotMatter(stretches: seq<Stretch>)
    requires forall s :: s in stretches ==> Valid(s)
    ensures Commands(Script(stretches), "") == Intended(stretches)
  {
    if stretches != [] {
      var rest := Script(stretches[1..]);
      assert Valid(stretches[0]);
      LayoutDoesNotMatter(stretches[1..]);
      match stretches[0] {
        case Idle(line) =>
          assert ([line] + rest)[1..] == rest;
        case Logical(lines) =>
          OneCommand(lines, rest);
      }
    }
  }

  // ---------------------------------------------------------------------
  // When a comment is dropped
  // ---------------------------------------------------------------------

  /** The text waiting to be continued after some lines. */
  function Pending(lines: seq<string>, pending: string): string {
    if lines == [] then pending
    else
      var line := Trim(lines[0]);
      if pending == "" && (line == "" || IsComment(line)) then Pending(lines[1..], "")
      else if Continues(line) then Pending(lines[1..], Glue(pending, line[..|line| - 1]))
      else Pending(lines[1..], "")
  }

  /** The commands that ended within some lines. */
  function Ended(lines: seq<string>, pending: string): seq<string> {
    if lines == [] then []
    else
      var line := Trim(lines[0]);
      if pending == "" && (line == "" || IsComment(line)) then Ended(lines[1..], "")
      else if Continues(line) then Ended(lines[1..], Glue(pending, line[..|line| - 1]))
      else
        var whole := if pending != "" then Glue(pending, line) else line;
        if whole == "" || IsComment(whole) then Ended(lines[1..], "")
        else [Normalise(whole)] + Ended(lines[1..], "")
  }

  /** Reading on from where some lines left off. */
  lemma {:induction false} CommandsContinue(before: seq<string>, rest: seq<string>, pending: string)
    ensures Commands(before + rest, pending) == Ended(before, pending) + Commands(rest, Pending(before, pending))
    decreases |before|
  {
    if before == [] {
      assert before + rest == rest;
    } else {
      var line := Trim(before[0]);
      assert (before + rest)[1..] == before[1..] + rest;
      if pending == "" && (line == "" || IsComment(line)) {
        CommandsContinue(before[1..], rest, "");
      } else if Continues(line) {
        CommandsContinue(before[1..], rest, Glue(pending, line[..|line| - 1]));
      } else {
        CommandsContinue(before[1..], rest, "");
        var whole := if pending != "" then Glue(pending, line) else line;
        Associate([Normalise(whole)], Ended(before[1..], ""), Commands(rest, Pending(before[1..], "")));
      }
    }
  }

  lemma {:induction false} PendingIsExecutable(lines: seq<string>, pending: string)
    requires pending == "" || Executable(pending)
    ensures Pending(lines, pending) == "" || Executable(Pending(lines, pending))
    decreases |lines|
  {
    if lines != [] {
      var line := Trim(lines[0]);
      TrimEnds(lines[0]);
      if pending == "" && (line == "" || IsComment(line)) {
        PendingIsExecutable(lines[1..], "");
      } else if Continues(line) {
        if pending == "" {
          FirstPending(line);
        } else {
          PendingStaysExecutable(pending, line[..|line| - 1]);
        }
        PendingIsExecutable(lines[1..], Glue(pending, line[..|line| - 1]));
      } else {
        PendingIsExecutable(lines[1..], "");
      }
    }
  }

  /** A comment that follows text still pending adds a word to the command. */
  lemma CommentAddsWords(pending: string, line: string)
    requires Executable(pending) && IsComment(Trim(line))
    ensures Commands([line], pending) == [Join(" ", Words(pending, "") + Words(Fragment(line), ""))]
    ensures Words(Fragment(line), "") != []
  {
    var fragment := Fragment(line);
    assert [line] + [] == [line] && Commands([], "") == [];
    FirstWordKeepsHead(fragment, "");
    if Continues(Trim(line)) {
      NotLastLine(line, [], pending);
      ContinuedWords(pending, fragment);
      PendingStaysExecutable(pending, fragment);
    } else {
      LastLine(line, [], pending);
    }
  }

  /** A comment line is dropped, whatever follows it, exactly when no command is
      waiting to be continued where it stands. */
  lemma CommentDroppedExactly(before: seq<string>, line: string)
    requires IsComment(Trim(line))
    ensures (forall rest :: Commands(before + [line] + rest, "") == Commands(before + rest, ""))
            <==> Pending(before, "") == ""
  {
    var pending := Pending(before, "");
    forall rest: seq<string>
      ensures Commands(before + [line] + rest, "") == Ended(before, "") + Commands([line] + rest, pending)
      ensures Commands(before + rest, "") == Ended(before, "") + Commands(rest, pending)
      ensures pending == "" ==> Commands([line] + rest, pending) == Commands(rest, pending)
    {
      assert before + [line] + rest == before + ([line] + rest);
      CommandsContinue(before, [line] + rest, "");
      CommandsContinue(before, rest, "");
      assert ([line] + rest)[1..] == rest;
    }
    if pending != "" {
      PendingIsExecutable(before, "");
      CommentAddsWords(pending, line);
      DifferentWords(pending, Fragment(line));
      assert [line] + [] == [line];
      var ended := Ended(before, "");
      assert Commands([], pending) == [Normalise(pending)];
      assert Commands(before + [line] + [], "")[|ended|] != Commands(before + [], "")[|ended|];
    }
  }

  lemma DifferentWords(a: string, b: string)
    requires Words(b, "") != []
    ensures Join(" ", Words(a, "") + Words(b, "")) != Normalise(a)
  {
    WordsAreWords(a, "");
    WordsAreWords(b, "");
    JoinedWordsReadBack(Words(a, "") + Words(b, ""));
    JoinedWordsReadBack(Words(a, ""));
  }

  /** A `#` line inside a continued command is not dropped: it joins the command. */
  lemma CommentInsideACommandRuns()
    ensures Commands(["a \\", "# b"], "") == ["a # b"]
  {
    var lines := ["a \\", "# b"];
    WordsOfTheTwoLines();
    assert lines + [] == lines;
    OneCommand(lines, []);
    assert Commands([], "") == [];
    assert ["a", "#", "b"][1..] == ["#", "b"] && ["#", "b"][1..] == ["b"];
    assert Join(" ", ["#", "b"]) == "# b" && Join(" ", AllWords(lines)) == "a # b";
  }

  lemma WordsOfTheTwoLines()
    ensures WellLaid(["a \\", "# b"]) && Executable(Fragment("a \\"))
    ensures AllWords(["a \\", "# b"]) == ["a", "#", "b"]
  {
    assert Trim("a \\") == "a \\" && Trim("# b") == "# b";
    assert Fragment("a \\") == "a ";
    WordsOfFragments();
    assert ["a \\", "# b"][1..] == ["# b"] && ["# b"][1..] == [];
  }

  lemma WordsOfFragments()
    ensures Words("a ", "") == ["a"]
    ensures Words("# b", "") == ["#", "b"]
  {
    OneWord("a", " ", "");
    assert "a" + " " == "a " && " "[1..] == "" && "" + "a" == "a";
    OneWord("#", " b", "");
    assert "#" + " b" == "# b" && " b"[1..] == "b" && "" + "#" == "#";
    OneWord("b", "", "");
    assert "b" + "" == "b" && "" + "b" == "b";
  }
}
