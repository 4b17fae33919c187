/**
 * The terraform guard: a command containing the whitespace token `apply` or
 * `destroy` is blocked until the user confirms. Matching is on whole tokens
 * anywhere in the command; the first such token names the subcommand.
 */
module PreTerraform {
  import opened Wrappers
  import opened Text
  import opened Protocol

  const DestructiveSubcommands: set<string> := {"apply", "destroy"}

  /** The first token that is a destructive subcommand, if any. */
  function FirstDestructive(parts: seq<string>): (r: Option<string>)
    ensures r.None? <==> forall p | p in parts :: p !in DestructiveSubcommands
    ensures r.Some? ==> r.value in DestructiveSubcommands
    ensures r.Some? ==>
      exists n | 0 <= n < |parts| :: parts[n] == r.value
        && forall m | 0 <= m < n :: parts[m] !in DestructiveSubcommands
  {
    if parts == [] then None
    else if parts[0] in DestructiveSubcommands then Some(parts[0])
    else
      var r := FirstDestructive(parts[1..]);
      if r.Some? then
        var n :| 0 <= n < |parts[1..]| && parts[1..][n] == r.value
          && forall m | 0 <= m < n :: parts[1..][m] !in DestructiveSubcommands;
        assert parts[n + 1] == r.value;
        assert forall m | 0 <= m < n + 1 :: parts[m] !in DestructiveSubcommands by {
          forall m | 0 <= m < n + 1 ensures parts[m] !in DestructiveSubcommands {
            if m > 0 { assert parts[m] == parts[1..][m - 1]; }
          }
        }
        r
      else
        assert forall p | p in parts :: p == parts[0] || p in parts[1..];
        r
  }

  /** `is_destructive`: the loop over `command.split()` with an early return. */
  method IsDestructive(command: string) returns (sub: Option<string>)
    ensures sub == FirstDestructive(Split(command))
  {
    var parts := Split(command);
    for n := 0 to |parts|
      invariant FirstDestructive(parts[n..]) == FirstDestructive(parts)
    {
      if parts[n] in DestructiveSubcommands {
        return Some(parts[n]);
      }
      assert parts[n..][1..] == parts[n + 1..];
    }
    assert parts[|parts|..] == [];
    return None;
  }

  /** The subcommand as the message quotes it. */
  function Quoted(sub: string): string {
    "`terraform " + sub + "`"
  }

  /** The stderr text, naming the subcommand twice. */
  function BlockMessage(sub: string): (msg: string)
    ensures Contains(msg, Quoted(sub))
  {
    var middle := " is a destructive operation.\n\nYou MUST ask the user:\n'About to run ";
    var tail := ". Have you reviewed the plan? Should I proceed?'\n\n"
      + "Only proceed after explicit user confirmation.";
    ContainsMiddle("BLOCKED: ", Quoted(sub), middle + Quoted(sub) + tail);
    "BLOCKED: " + Quoted(sub) + (middle + Quoted(sub) + tail)
  }

  /** The hook's decision for a shell command. */
  function TerraformDecision(event: Event): (d: Decision)
    ensures !d.Ask?
    ensures d.Block? <==> exists p | p in Split(event.command) :: p in DestructiveSubcommands
    ensures d.Block? ==> d.reason == BlockMessage(FirstDestructive(Split(event.command)).value)
  {
    match FirstDestructive(Split(event.command))
    case None => Allow
    case Some(sub) => Block(BlockMessage(sub))
  }

  /** The decision and its exit code: 2 exactly for a block. */
  lemma TerraformExitCode(event: Event)
    ensures Render(TerraformDecision(event)).exitCode
      == (if FirstDestructive(Split(event.command)).Some? then BlockedExit else 0)
  {
  }

  /** `terraform plan` passes through. */
  lemma PlanAllowed(e: Event)
    requires e.command == "terraform plan"
    ensures TerraformDecision(e) == Allow
  {
    SplitWords(e.command, ["terraform", "plan"]);
    PlanTokens();
  }

  lemma PlanTokens()
    ensures FirstDestructive(["terraform", "plan"]) == None
  {
  }

  /** `terraform apply -auto-approve` is blocked, naming `apply`. */
  lemma ApplyBlocked(e: Event)
    requires e.command == "terraform apply -auto-approve"
    ensures TerraformDecision(e) == Block(BlockMessage("apply"))
  {
    var words := ["terraform", "apply", "-auto-approve"];
    ApplyWords(words);
    SplitWords(e.command, words);
    ApplyTokens();
  }

  lemma ApplyWords(words: seq<string>)
    requires words == ["terraform", "apply", "-auto-approve"]
    ensures forall w | w in words :: w != [] && NoSpace(w)
    ensures Join(" ", words) == "terraform apply -auto-approve"
  {
    assert Join(" ", words[2..]) == "-auto-approve";
    assert Join(" ", words[1..]) == "apply -auto-approve";
  }

  lemma ApplyTokens()
    ensures FirstDestructive(["terraform", "apply", "-auto-approve"]) == Some("apply")
  {
  }

  /** Whole tokens only: `apply;` and `-destroy` are not subcommands. */
  lemma PunctuatedTokensIgnored()
    ensures FirstDestructive(["terraform", "apply;"]) == None
    ensures FirstDestructive(["terraform", "-destroy"]) == None
  {
  }

  /** The token may appear anywhere, also outside terraform: `git apply`
      is blocked too. */
  lemma AnyCommandWithTheToken()
    ensures FirstDestructive(["git", "apply", "fix.patch"]) == Some("apply")
  {
  }
}
