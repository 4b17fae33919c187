/**
 * What every hook shares: the event the host hands it, the three-valued
 * decision it reaches, and how that decision is signalled back to the host
 * (an exit status, an "ask" object on stdout, a message on stderr).
 */
module Protocol {
  import opened Wrappers

  /** The fields of the JSON event that the hooks read: `tool_name`,
      `tool_input.command` and `tool_input.file_path`, each "" when absent. */
  datatype Event = Event(toolName: string, command: string, filePath: string)

  /** Let the action through, let it through only after the user confirms,
      or refuse it. */
  datatype Decision = Allow | Ask(reason: string) | Block(reason: string)

  /** The `hookSpecificOutput` object an "ask" decision prints as JSON. */
  datatype AskPayload = AskPayload(hookEventName: string, permissionDecision: string, permissionDecisionReason: string)

  /** What a hook process leaves behind: its exit status, the object it
      printed on stdout, if any, and the text it printed on stderr. */
  datatype Outcome = Outcome(exitCode: int, stdout: Option<AskPayload>, stderr: string)

  /** The exit status that tells the host the action is blocked. */
  const BlockedExit := 2

  /** The event name every "ask" payload carries. */
  const PreToolUse := "PreToolUse"

  /** How the host reads a hook's outcome. */
  function Interpret(o: Outcome): Decision {
    if o.exitCode == BlockedExit then Block(o.stderr)
    else if o.exitCode == 0 && o.stdout.Some? && o.stdout.value.permissionDecision == "ask" then
      Ask(o.stdout.value.permissionDecisionReason)
    else Allow
  }

  /** How a hook signals its decision: a silent `exit 0`, the ask object
      printed and `exit 0`, or the reason on stderr and `exit 2`. */
  function Render(d: Decision): (o: Outcome)
    ensures o.exitCode == 0 || o.exitCode == BlockedExit
    ensures o.exitCode == BlockedExit <==> d.Block?
    ensures o.stdout.Some? <==> d.Ask?
    ensures d.Ask? ==> o.stdout.value.hookEventName == PreToolUse
    ensures !d.Block? ==> o.stderr == ""
    ensures Interpret(o) == d
  {
    match d
    case Allow => Outcome(0, None, "")
    case Ask(reason) => Outcome(0, Some(AskPayload(PreToolUse, "ask", reason)), "")
    case Block(reason) => Outcome(BlockedExit, None, reason)
  }
}
