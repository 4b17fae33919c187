/**
 * The commit guard: a commit made while `main` or `master` is checked out is
 * blocked with instructions to ask the user about a new branch; on any other
 * branch the commit goes through. The branch is the trimmed stdout of
 * `git rev-parse --abbrev-ref HEAD`, whose return code the hook never
 * checks, so a failed query yields "" and allows.
 */
module PreCommit {
  import opened Text
  import opened Protocol

  const ProtectedBranches: set<string> := {"main", "master"}

  /** The stderr text of the block, naming the branch twice. */
  function BlockMessage(branch: string): string {
    "BLOCKED: You are on the " + branch + BlockMessageTail(branch)
  }

  function BlockMessageTail(branch: string): string {
    " branch.\n\n"
    + "Before committing, you MUST:\n"
    + "1. Ask the user: 'You're on " + branch + ". Should I create a new branch for this commit?'\n"
    + "2. If yes, create the branch and switch to it\n"
    + "3. Then retry the commit"
  }

  /** The hook's decision for a commit event while `branch` is checked out.
      The event is read but never consulted. */
  function CommitDecision(event: Event, branch: string): (d: Decision)
    ensures d.Block? <==> branch == "main" || branch == "master"
    ensures !d.Ask?
    ensures d.Block? ==> Contains(d.reason, branch)
    ensures Render(d).exitCode == (if branch in ProtectedBranches then 2 else 0)
  {
    if branch in ProtectedBranches then
      ContainsMiddle("BLOCKED: You are on the ", branch, BlockMessageTail(branch));
      Block(BlockMessage(branch))
    else Allow
  }

  /** Two commit events on the same branch get the same decision. */
  lemma CommitIgnoresEvent(e1: Event, e2: Event, branch: string)
    ensures CommitDecision(e1, branch) == CommitDecision(e2, branch)
  {
  }
}
