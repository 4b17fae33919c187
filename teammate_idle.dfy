/**
 * The idle guard for agent teammates: a teammate about to go idle is held
 * back while the working tree holds uncommitted code files. It reads
 * `git status --porcelain` exactly as the task-completion guard does, but
 * stops at the first code file instead of collecting them all.
 */
module TeammateIdle {
  import opened Text
  import opened Protocol
  import opened GitStatus
  import opened TaskCompleted

  /** Some line names a code file. */
  predicate AnyCodeLine(lines: seq<string>) {
    exists n | 0 <= n < |lines| :: IsCodeLine(lines[n])
  }

  /** Some status line names a code file, and `git status` succeeded. */
  predicate HasCode(git: GitResult) {
    git.returnCode == 0 && AnyCodeLine(StatusLines(git.stdout))
  }

  /** The loop over the status lines, returning at the first code path. */
  method HasUncommittedCode(git: GitResult) returns (found: bool)
    ensures found == HasCode(git)
  {
    if git.returnCode != 0 {
      return false;
    }
    var lines := StatusLines(git.stdout);
    for n := 0 to |lines|
      invariant forall m | 0 <= m < n :: !IsCodeLine(lines[m])
    {
      var line := lines[n];
      if |line| < 4 {
        NoCodeLineYet(lines, n);
        continue;
      }
      var filepath := PathOf(line);
      if IsCodePath(filepath) {
        assert IsCodeLine(lines[n]);
        assert AnyCodeLine(lines);
        return true;
      }
      NoCodeLineYet(lines, n);
    }
    assert !AnyCodeLine(lines);
    return false;
  }

  /** One more line read without finding code. */
  lemma NoCodeLineYet(lines: seq<string>, n: nat)
    requires n < |lines| && !IsCodeLine(lines[n])
    requires forall m | 0 <= m < n :: !IsCodeLine(lines[m])
    ensures forall m | 0 <= m < n + 1 :: !IsCodeLine(lines[m])
  {
  }

  /** A code line among `lines` is one among all but the last, or the
      last. */
  lemma AnyCodeLineSnoc(lines: seq<string>)
    requires lines != []
    ensures AnyCodeLine(lines) <==>
      AnyCodeLine(lines[..|lines| - 1]) || IsCodeLine(lines[|lines| - 1])
  {
    var init := lines[..|lines| - 1];
    assert forall n | 0 <= n < |init| :: init[n] == lines[n];
  }

  /** The collected code files are empty exactly when no line is a code
      line. */
  lemma {:induction false} CodeFilesEmpty(lines: seq<string>)
    ensures CodeFiles(lines) == [] <==> !AnyCodeLine(lines)
  {
    if lines != [] {
      CodeFilesEmpty(lines[..|lines| - 1]);
      AnyCodeLineSnoc(lines);
    }
  }

  /** The two guards agree: the idle check finds code exactly when the
      completion check's file list is non-empty. */
  lemma HasCodeIffFiles(git: GitResult)
    ensures HasCode(git) <==> UncommittedCodeFiles(git) != []
  {
    CodeFilesEmpty(StatusLines(git.stdout));
  }

  const IdleMessage := "You have uncommitted code changes. Before idling:\n"
    + "1. Run tests to verify your changes work\n"
    + "2. Commit your changes with a conventional commit message\n"
    + "3. Mark any completed tasks as done"

  /** Blocked, with the fixed reminder, exactly when code is uncommitted. */
  function IdleDecision(git: GitResult): (d: Decision)
    ensures !d.Ask?
    ensures d.Block? <==> HasCode(git)
    ensures d.Block? ==> d.reason == IdleMessage
  {
    if HasCode(git) then Block(IdleMessage) else Allow
  }

  /** Whenever one of the two guards blocks on a `git status` result, so
      does the other; both exit with status 2 then. */
  lemma IdleBlocksIffCompletionBlocks(git: GitResult)
    ensures IdleDecision(git).Block? <==> TaskDecision(git).Block?
    ensures Render(IdleDecision(git)).exitCode == Render(TaskDecision(git)).exitCode
  {
    HasCodeIffFiles(git);
  }
}
