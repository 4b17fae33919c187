/**
 * The task-completion guard: a task may not be marked complete while the
 * working tree holds uncommitted code files. The files come from
 * `git status --porcelain`, whose return code and output are parameters;
 * the block message lists at most ten of them.
 */
module TaskCompleted {
  import opened Text
  import opened Protocol
  import opened GitStatus

  // ---------------------------------------------------------------------
  // get_uncommitted_code_files

  /** The code files among `lines`, in order: what the loop has appended
      after reading `lines`. */
  function CodeFiles(lines: seq<string>): (files: seq<string>)
    ensures |files| <= |lines|
    ensures forall n | 0 <= n < |files| :: IsCodePath(files[n])
  {
    if lines == [] then []
    else
      var last := lines[|lines| - 1];
      CodeFiles(lines[..|lines| - 1]) + (if IsCodeLine(last) then [PathOf(last)] else [])
  }

  /** The list the hook computes: nothing when `git status` failed. */
  function UncommittedCodeFiles(git: GitResult): (files: seq<string>)
    ensures git.returnCode != 0 ==> files == []
    ensures forall n | 0 <= n < |files| :: IsCodePath(files[n]) && NoLineBreak(files[n])
  {
    if git.returnCode != 0 then []
    else
      var lines := StatusLines(git.stdout);
      CodeFilesFromLines(lines);
      CodeFiles(lines)
  }

  /** Every file is the path of one of the lines, so none holds a line
      break when no line does. */
  lemma {:induction false} CodeFilesFromLines(lines: seq<string>)
    requires forall l | l in lines :: NoLineBreak(l)
    ensures forall n | 0 <= n < |CodeFiles(lines)| :: NoLineBreak(CodeFiles(lines)[n])
  {
    if lines != [] {
      var init := lines[..|lines| - 1];
      assert forall l | l in init :: l in lines;
      CodeFilesFromLines(init);
      PathOfNoLineBreak(lines[|lines| - 1]);
    }
  }

  /** The loop over the status lines, appending each code path. */
  method GetUncommittedCodeFiles(git: GitResult) returns (codeFiles: seq<string>)
    ensures codeFiles == UncommittedCodeFiles(git)
  {
    if git.returnCode != 0 {
      return [];
    }
    codeFiles := [];
    var lines := StatusLines(git.stdout);
    for n := 0 to |lines|
      invariant codeFiles == CodeFiles(lines[..n])
    {
      assert lines[..n + 1][..n] == lines[..n];
      var line := lines[n];
      if |line| < 4 {
        continue;
      }
      var filepath := PathOf(line);
      if IsCodePath(filepath) {
        codeFiles := codeFiles + [filepath];
      }
    }
    assert lines[..|lines|] == lines;
  }

  // ---------------------------------------------------------------------
  // An independent reading: parse every line, then keep the code paths

  /** The path of every line the hooks do not skip, in order. */
  function ParsedPaths(lines: seq<string>): seq<string> {
    if lines == [] then []
    else ParsedLine(lines[0]) + ParsedPaths(lines[1..])
  }

  /** The path of one line, or nothing for a skipped line. */
  function ParsedLine(line: string): seq<string> {
    if Skipped(line) then [] else [PathOf(line)]
  }

  /** The code paths of a list, in order. */
  function KeepCode(paths: seq<string>): seq<string> {
    if paths == [] then []
    else (if IsCodePath(paths[0]) then [paths[0]] else []) + KeepCode(paths[1..])
  }

  lemma {:induction false} ParsedPathsAppend(xs: seq<string>, ys: seq<string>)
    ensures ParsedPaths(xs + ys) == ParsedPaths(xs) + ParsedPaths(ys)
    decreases |xs|
  {
    if xs == [] {
      assert xs + ys == ys;
    } else {
      var s := xs + ys;
      assert s[0] == xs[0] && s[1..] == xs[1..] + ys;
      ParsedPathsAppend(xs[1..], ys);
      var h := ParsedLine(xs[0]);
      assert ParsedPaths(s) == h + (ParsedPaths(xs[1..]) + ParsedPaths(ys));
      assert h + (ParsedPaths(xs[1..]) + ParsedPaths(ys)) == (h + ParsedPaths(xs[1..])) + ParsedPaths(ys);
    }
  }

  lemma {:induction false} KeepCodeAppend(xs: seq<string>, ys: seq<string>)
    ensures KeepCode(xs + ys) == KeepCode(xs) + KeepCode(ys)
    decreases |xs|
  {
    if xs == [] {
      assert xs + ys == ys;
    } else {
      var s := xs + ys;
      assert s[0] == xs[0] && s[1..] == xs[1..] + ys;
      KeepCodeAppend(xs[1..], ys);
    }
  }

  /** The files are exactly the parsed paths with a code extension, in
      their order: an order-preserving selection from the status lines. */
  lemma {:induction false} CodeFilesAreParsedCodePaths(lines: seq<string>)
    ensures CodeFiles(lines) == KeepCode(ParsedPaths(lines))
  {
    if lines != [] {
      var init := lines[..|lines| - 1];
      var last := lines[|lines| - 1];
      assert lines == init + [last];
      CodeFilesAreParsedCodePaths(init);
      ParsedPathsAppend(init, [last]);
      KeepCodeAppend(ParsedPaths(init), ParsedPaths([last]));
    }
  }

  // ---------------------------------------------------------------------
  // The block message

  const MaxListed := 10

  // The fixed lines, each written as pieces short enough for the verifier
  // to inspect character by character.

  const Title := "BLOCKED: You have uncommitted " + "code changes."

  const FilesHeading := "Uncommitted files:"

  const Instructions := [
    "Before marking this task " + "complete, you MUST:",
    "1. Run the project's test " + "suite and confirm tests pass",
    "2. Run the project's " + "linter/formatter if available",
    "3. Commit your changes with a " + "conventional commit message",
    "4. Then mark the task " + "complete again"
  ]

  /** `"  - " + f` for the first ten files. */
  function Listed(files: seq<string>): (ls: seq<string>)
    ensures |ls| == if |files| < MaxListed then |files| else MaxListed
    ensures forall n | 0 <= n < |ls| :: ls[n] == "  - " + files[n]
  {
    var k := if |files| < MaxListed then |files| else MaxListed;
    seq(k, n requires 0 <= n < k => "  - " + files[n])
  }

  /** The remainder line, when more than ten files are uncommitted. */
  function MoreLine(files: seq<string>): string
    requires |files| > MaxListed
  {
    "  ... and " + IntToString(|files| - MaxListed) + " more"
  }

  /** `extra`: a newline and the remainder line, or nothing. */
  function Extra(files: seq<string>): string {
    if |files| > MaxListed then "\n" + MoreLine(files) else ""
  }

  /** The message as the hook prints it, its literal line breaks written
      out one by one. */
  function BlockMessage(files: seq<string>): string {
    Title + "\n" + "\n" + FilesHeading + "\n" + Join("\n", Listed(files)) + Extra(files)
    + "\n" + "\n" + Instructions[0] + "\n" + Instructions[1] + "\n" + Instructions[2]
    + "\n" + Instructions[3] + "\n" + Instructions[4]
  }

  /** The lines of the message: the title, the heading, one line per listed
      file, the remainder line exactly when there are more than ten files,
      and the instructions. */
  function MessageLines(files: seq<string>): seq<string> {
    [Title, "", FilesHeading] + Listed(files)
    + (if |files| > MaxListed then [MoreLine(files)] else [])
    + [""] + Instructions
  }

  /** A line the message writes with no line break inside it. */
  predicate Single(line: string) {
    '\n' !in line
  }

  lemma HeadingSingle()
    ensures Single(Title) && Single(FilesHeading) && Single("")
  {
  }

  lemma Instruction0Single() ensures Single(Instructions[0]) { }
  lemma Instruction1Single() ensures Single(Instructions[1]) { }
  lemma Instruction2Single() ensures Single(Instructions[2]) { }
  lemma Instruction3Single() ensures Single(Instructions[3]) { }
  lemma Instruction4Single() ensures Single(Instructions[4]) { }

  /** The fixed lines of the message hold no line break. */
  lemma FixedLinesSingle()
    ensures Single(Title) && Single(FilesHeading)
    ensures |Instructions| == 5 && forall k | 0 <= k < 5 :: Single(Instructions[k])
  {
    HeadingSingle();
    Instruction0Single();
    Instruction1Single();
    Instruction2Single();
    Instruction3Single();
    Instruction4Single();
  }

  /** The title, a blank line and the heading. */
  lemma OpeningSplit(title: string, heading: string)
    requires Single(title) && Single(heading)
    ensures SplitOn(title + "\n" + "\n" + heading, '\n') == [title, "", heading]
  {
    SplitOnSingle(title, '\n');
    SplitOnTrailing(title, '\n');
    SplitOnAppend(title + "\n", heading, '\n');
  }

  /** The opening lines and the file list, for any lines without breaks. */
  lemma HeadSplit(title: string, heading: string, listed: seq<string>, extra: string, more: seq<string>)
    requires Single(title) && Single(heading)
    requires |listed| > 0 && forall l | l in listed :: Single(l)
    requires (more == [] && extra == "") || (|more| == 1 && Single(more[0]) && extra == "\n" + more[0])
    ensures SplitOn(title + "\n" + "\n" + heading + "\n" + Join("\n", listed) + extra, '\n')
      == [title, "", heading] + listed + more
  {
    var opening := title + "\n" + "\n" + heading;
    OpeningSplit(title, heading);
    SplitOnJoin(listed, '\n');
    SplitOnSep(opening, Join("\n", listed), '\n');
    var body := opening + "\n" + Join("\n", listed);
    if more == [] {
      assert body + extra == body;
    } else {
      assert body + extra == body + "\n" + more[0];
      SplitOnAppend(body, more[0], '\n');
      assert more == [more[0]];
    }
  }

  /** Five lines after any text. */
  lemma FiveLinesSplit(part: string, s0: string, s1: string, s2: string, s3: string, s4: string)
    requires Single(s0) && Single(s1) && Single(s2) && Single(s3) && Single(s4)
    ensures SplitOn(part + "\n" + s0 + "\n" + s1 + "\n" + s2 + "\n" + s3 + "\n" + s4, '\n')
      == SplitOn(part, '\n') + [s0] + [s1] + [s2] + [s3] + [s4]
  {
    SplitOnAppend(part, s0, '\n');
    var m0 := part + "\n" + s0;
    SplitOnAppend(m0, s1, '\n');
    var m1 := m0 + "\n" + s1;
    SplitOnAppend(m1, s2, '\n');
    var m2 := m1 + "\n" + s2;
    SplitOnAppend(m2, s3, '\n');
    var m3 := m2 + "\n" + s3;
    SplitOnAppend(m3, s4, '\n');
  }

  /** A blank line and the five instruction lines after any text `part`. */
  lemma TailSplit(part: string, steps: seq<string>)
    requires |steps| == 5 && forall k | 0 <= k < 5 :: Single(steps[k])
    ensures SplitOn(part + "\n" + "\n" + steps[0] + "\n" + steps[1] + "\n" + steps[2]
      + "\n" + steps[3] + "\n" + steps[4], '\n') == SplitOn(part, '\n') + [""] + steps
  {
    SplitOnTrailing(part, '\n');
    FiveLinesSplit(part + "\n", steps[0], steps[1], steps[2], steps[3], steps[4]);
    assert steps == [steps[0]] + [steps[1]] + [steps[2]] + [steps[3]] + [steps[4]];
  }

  /** Reading the message back line by line gives exactly the title, the
      heading, the first `min(n, 10)` files, the remainder line when
      `n > 10`, and the instructions. */
  lemma BlockMessageLines(files: seq<string>)
    requires |files| > 0
    requires forall n | 0 <= n < |files| :: '\n' !in files[n]
    ensures SplitOn(BlockMessage(files), '\n') == MessageLines(files)
  {
    FixedLinesSingle();
    var listed := Listed(files);
    forall l | l in listed ensures Single(l) {
    }
    var more := if |files| > MaxListed then [MoreLine(files)] else [];
    HeadSplit(Title, FilesHeading, listed, Extra(files), more);
    var part := Title + "\n" + "\n" + FilesHeading + "\n" + Join("\n", listed) + Extra(files);
    TailSplit(part, Instructions);
  }

  // ---------------------------------------------------------------------
  // The decision

  /** Blocked exactly when uncommitted code files exist, with the message
      naming them. */
  function TaskDecision(git: GitResult): (d: Decision)
    ensures !d.Ask?
    ensures d.Block? <==> UncommittedCodeFiles(git) != []
    ensures d.Block? ==> d.reason == BlockMessage(UncommittedCodeFiles(git))
  {
    var files := UncommittedCodeFiles(git);
    if files == [] then Allow else Block(BlockMessage(files))
  }

  /** A failed `git status` never blocks. */
  lemma GitFailureAllows(git: GitResult)
    requires git.returnCode != 0
    ensures Render(TaskDecision(git)).exitCode == 0
  {
  }
}
