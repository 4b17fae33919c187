# Guardrail hooks, modelled in Dafny

The repository ships a set of Python hook scripts (`config/claude/hooks/`)
that a coding agent's host runs around its tool calls. Each hook reads the
pending event, looks at the command text and at repository state, and
answers in one of three ways: let the action through (exit 0), ask the
user to confirm (exit 0 plus a `PreToolUse` JSON payload whose
`permissionDecision` is `"ask"`), or block it (exit 2 with the reason on
standard error). The formatter hook runs after an edit and can only print
a warning.

This project models the decision logic of eight hooks:

| module | hook | decision |
|---|---|---|
| `PreCommit` | `pre-commit.py` | block a commit on `main` or `master` |
| `PrePush` | `pre-push.py` | block a push that targets `main` |
| `PreTerraform` | `pre-terraform.py` | block `apply` / `destroy` |
| `PreInstall` | `pre-install.py` | ask before an install that adds a package |
| `ProtectFiles` | `protect-files.py` | ask before `rm` of a path outside any git work tree |
| `AutoFormat` | `auto-format.py` | pick Biome, Prettier or dprint; warn when it fails |
| `TaskCompleted` | `task-completed.py` | block completion while code files are uncommitted |
| `TeammateIdle` | `teammate-idle.py` | block idling while code files are uncommitted |

Shared modules:
- `Wrappers` defines `Option`.
- `Text` models the pieces of Python's `str` the hooks use: `split()`, `strip()` and `strip(ch)`, `splitlines()`, `'\n'.join`, `startswith`/`endswith`, and integer formatting. It also has `SplitOn`, Python's `s.split(c)`. No hook calls it; it is used only to state how a joined block message comes apart into its lines.
- `Protocol` defines the event, the three-way `Decision`, and how a decision becomes an exit status and payload (`Render`). `Interpret` is the host's reading of a rendered decision, and `Render` is proved to be its inverse.
- `FileSystem` models paths as lists of components. `resolve` stands for `realpath(expanduser(...))` / `abspath`.
- `GitStatus` models how two hooks read `git status --porcelain`.

Repository state is a parameter rather than a query:
- the current branch;
- the return code and output of `git status`;
- the directories and files on disk;
- the return code and error output of the formatter.

The regular expressions of `pre-install.py` and `protect-files.py` are modelled as hand-written scanners. Each scanner follows the regex's backtracking behaviour:
- `\b` is `Text.WordBoundary`;
- greedy `\s+` is `KeywordThenSpace` followed by `SkipSpaces`;
- the starred flag group of the `rm` path pattern gives back groups one at a time, as `re` does (`ProtectFiles.FlagsThenCapture`);
- `re.findall` resumes at the end of each match (`ProtectFiles.FindAllFrom`).

Where the hooks' own documentation and their code differ, the model follows the code:
- `pre-push.py`, `pre-terraform.py` and `teammate-idle.py` are described as asking for confirmation or nudging. They exit with status 2, which blocks.
- The push message does not name the current branch.
- `pre-commit.py` has no approval workflow. It blocks on `main` and `master` and allows everything else.

Four behaviours of the code are stated as lemmas rather than corrected:
- **The first status line loses a character.** `stdout.strip()` removes the blank status column of the first `git status` line, so that line's path loses its first character (`GitStatus.LeadingBlankStatusShiftsPath`).
- **The push guard misses `HEAD:main` pushed from a feature branch** (`PrePush.HeadColonMainFromFeatureAllowed`).
- **A long or upper-case `rm` flag hides the path after it.** Only groups of `r`, `f`, `i` and `v` are skipped as flags, so in `rm --force foo` and `rm -Rf foo` the flag itself is the only candidate; it starts with `-`, is passed over, and `foo` is never checked (`ProtectFiles.RmLongFlagUnchecked`, `ProtectFiles.RmUpperFlagUnchecked`).
- **A whitespace-only formatter error is reported as an empty text**, not as "unknown error" (`AutoFormat.BlankErrorShownEmpty`).

## Model

| member | source | states |
|---|---|---|
| Protocol.Render | config/claude/hooks/pre-install.py:40-54 | exit status is 0 or 2; 2 exactly for a block; a payload exactly for an ask, tagged `PreToolUse`; nothing on stderr unless blocked; the host's reading gives back the decision |
| FileSystem.Dirname | config/claude/hooks/auto-format.py:17-18 | the parent is one component shorter and an ancestor; only the root is its own parent |
| Text.SplitJoinSpace | config/claude/hooks/pre-push.py:24 | splitting words joined by single spaces gives back the words |
| Text.SplitLines | config/claude/hooks/task-completed.py:40 | no line holds a line break (the line-by-line behaviour is `Text.SplitLinesStep` and `Text.SplitLinesJoin`) |
| Text.SplitLinesStep | config/claude/hooks/task-completed.py:40 | a break-free line followed by `\n` splits off as one line, and the rest is split on its own |
| Text.SplitLinesCrLf | config/claude/hooks/task-completed.py:40 | the same for a line ended by `\r\n`, which counts as one break |
| Text.SplitLinesJoin | config/claude/hooks/task-completed.py:40 | splitting break-free lines joined by `\n` gives back the lines, for any number of them when the last is non-empty |
| Text.SplitOnJoin | config/claude/hooks/task-completed.py:62 | splitting `c.join(xs)` on `c` gives back `xs` when no element holds `c` |
| Text.ParseNatToString | config/claude/hooks/task-completed.py:63 | the decimal rendering of a count parses back to the count |
| Text.IntToString | config/claude/hooks/auto-format.py:77 | the rendering starts with `-` exactly for negative numbers; the rest is all digits, with no leading zero, and parses back to the absolute value |
| PreCommit.CommitDecision | config/claude/hooks/pre-commit.py:26-40 | blocks exactly on `main` or `master`, never asks, the message names the branch, exit 2 exactly then |
| PreCommit.CommitIgnoresEvent | config/claude/hooks/pre-commit.py:22-26 | the event's content plays no part in the decision |
| PrePush.Positional | config/claude/hooks/pre-push.py:39 | keeps exactly the tokens that are neither flags nor `git`/`push`, and no others |
| PrePush.PositionalAppend | config/claude/hooks/pre-push.py:39 | the filter keeps order and repetition: a single token survives exactly when it is positional, and the positionals of two halves are those of the first half followed by those of the second |
| PrePush.IsPushingToMain | config/claude/hooks/pre-push.py:23-51 | a `main` token among the whitespace-split words always makes it a push to `main`; off `main` only such a token does |
| PrePush.PushTargetsMain | config/claude/hooks/pre-push.py:23-51 | a `main` token always blocks; off `main` only a `main` token blocks; on `main`, blocks unless the second positional is a refspec with a colon |
| PrePush.PushDecision | config/claude/hooks/pre-push.py:54-70 | blocks exactly when the command targets `main`, with the fixed message, never asks |
| PrePush.CatchesColonFreePushesToMain | config/claude/hooks/pre-push.py:41-51 | on any branch, a push whose named destination (positional refspec without a colon, or `HEAD` on `main`) is `main` is blocked |
| PrePush.ColonRefspecOnMainAllowed | config/claude/hooks/pre-push.py:42-48 | on `main`, without a `main` token, a colon refspec in second position is allowed |
| PrePush.ExplicitMainBlocked | config/claude/hooks/pre-push.py:26-29 | `git push origin main` from `feature-x` is blocked with the fixed message |
| PrePush.BarePushOnMainBlocked | config/claude/hooks/pre-push.py:50-51 | `git push` on `main` is blocked |
| PrePush.PushToOtherBranchFromMainAllowed | config/claude/hooks/pre-push.py:47-48 | `git push origin main:release` on `main` is allowed |
| PrePush.HeadColonMainFromFeatureAllowed | config/claude/hooks/pre-push.py:33-35 | `git push origin HEAD:main` from a feature branch pushes to `main` and is still allowed |
| PrePush.OtherBranchByNameFromMainBlocked | config/claude/hooks/pre-push.py:44-46 | on `main`, `git push origin feature` pushes `feature` and is still blocked |
| PrePush.PositionalGitPush | config/claude/hooks/pre-push.py:39-43 | the positionals of `git push <remote> <refspec>` are the remote and the refspec |
| PrePush.MasterNotProtected | config/claude/hooks/pre-push.py:33-35 | being on `master` decides exactly as being on any other non-`main` branch |
| PreTerraform.FirstDestructive | config/claude/hooks/pre-terraform.py:15-23 | none exactly when no token is `apply`/`destroy`; otherwise the first such token |
| PreTerraform.IsDestructive | config/claude/hooks/pre-terraform.py:15-23 | the loop returns the first destructive token of `command.split()` |
| PreTerraform.BlockMessage | config/claude/hooks/pre-terraform.py:33-38 | the message quotes `terraform <subcommand>` |
| PreTerraform.TerraformDecision | config/claude/hooks/pre-terraform.py:26-42 | blocks exactly when some token is destructive, naming the first one; never asks |
| PreTerraform.TerraformExitCode | config/claude/hooks/pre-terraform.py:31-42 | exit 2 exactly when a destructive token is found, 0 otherwise |
| PreTerraform.PlanAllowed | config/claude/hooks/pre-terraform.py:42 | `terraform plan` is allowed |
| PreTerraform.ApplyBlocked | config/claude/hooks/pre-terraform.py:31-40 | `terraform apply -auto-approve` is blocked naming `apply` |
| PreTerraform.PunctuatedTokensIgnored | config/claude/hooks/pre-terraform.py:19-21 | `apply;` and `-destroy` are not destructive tokens |
| PreTerraform.AnyCommandWithTheToken | config/claude/hooks/pre-terraform.py:17-21 | any command with an `apply` token counts, `git apply` included |
| PreInstall.PipLookaheadsRedundant | config/claude/hooks/pre-install.py:24 | the pip argument test with all five lookaheads is the same as "a character that is not whitespace, `-` or `.`" |
| PreInstall.MatchAt | config/claude/hooks/pre-install.py:14-27 | a pattern matches at a position: a word boundary, one of its tools, whitespace, one of its subcommands, whitespace, and an acceptable first argument character (see `PreInstall.Invocation`, `PreInstall.FlagArgumentRejected`) |
| PreInstall.Search | config/claude/hooks/pre-install.py:32 | `re.search`: the pattern matches at some position (see `PreInstall.FlaggedInContext`, `PreInstall.ToolMustStartAWord`) |
| PreInstall.IsAddingDependency | config/claude/hooks/pre-install.py:30-32 | some pattern of the list is found; which whole commands are and are not flagged is stated by the lemmas below |
| PreInstall.InstallDecision | config/claude/hooks/pre-install.py:35-54 | asks exactly when some pattern is found, with the fixed reason; never blocks; exit 0 always |
| PreInstall.AddPatternsWellFormed | config/claude/hooks/pre-install.py:14-27 | every pattern has tools and subcommands, all non-empty words |
| PreInstall.Invocation | config/claude/hooks/pre-install.py:14-27 | `<tool> <subcommand> <arg>` with an acceptable first argument character is flagged, for every pattern |
| PreInstall.FlaggedInContext | config/claude/hooks/pre-install.py:30-32 | a flagged command stays flagged inside a longer command, unless a word character is glued before it |
| PreInstall.FlagArgumentRejected | config/claude/hooks/pre-install.py:16-26 | an argument starting with `-` never matches at that position |
| PreInstall.BareInvocationNotFlagged | config/claude/hooks/pre-install.py:14-27 | `<tool> <subcommand>` with no argument is never flagged |
| PreInstall.InstallIsNotAdd | config/claude/hooks/pre-install.py:18-26 | the pnpm, yarn, bun and cargo patterns never match where their tool is followed by a subcommand starting with `i`, such as `install`, whatever argument follows |
| PreInstall.ToolMustStartAWord | config/claude/hooks/pre-install.py:16 | no pattern matches in the middle of a word (`\b`) |
| PreInstall.FlagInvocationNotFlagged | config/claude/hooks/pre-install.py:14-32 | a whole command `<tool> <subcommand> -<flag>` of three words is never flagged, at any position and by any pattern |
| PreInstall.FlagThenValueNotFlagged | config/claude/hooks/pre-install.py:14-32 | a whole command `<tool> <subcommand> -<flag> <value>` of four words is never flagged, at any position and by any pattern |
| PreInstall.RequirementsFileNotFlagged | config/claude/hooks/pre-install.py:14-32 | `pip install -r requirements.txt` is not a dependency addition |
| PreInstall.GluedToolNotFlagged | config/claude/hooks/pre-install.py:14-32 | a three-word command whose first word is made of word characters and is not a tool name is never flagged, even when a tool name ends that word |
| PreInstall.PrefixedNpmNotFlagged | config/claude/hooks/pre-install.py:14-32 | `xnpm install lodash` is not a dependency addition |
| PreInstall.ForeignSubcommandNotFlagged | config/claude/hooks/pre-install.py:14-32 | a three-word command whose first word is a tool only of patterns that do not accept its second word as a subcommand is never flagged |
| PreInstall.YarnInstallNotFlagged | config/claude/hooks/pre-install.py:14-32 | `yarn install lodash` is not a dependency addition |
| ProtectFiles.StartDir | config/claude/hooks/protect-files.py:23 | the walk starts at the path itself when it is a directory and at its parent otherwise; either way an ancestor of the path |
| ProtectFiles.IsInsideGitRepo | config/claude/hooks/protect-files.py:15-29 | the loop's answer equals the upward search for `.git`; an empty path is inside |
| ProtectFiles.GitMarkerAboveExactly | config/claude/hooks/protect-files.py:22-29 | the walk finds a marker exactly when some non-root prefix of the start directory holds `.git` |
| ProtectFiles.RootMarkerIgnored | config/claude/hooks/protect-files.py:24 | a `.git` directory at `/` never counts |
| ProtectFiles.NoMarkerWithoutRepository | config/claude/hooks/protect-files.py:24-29 | with no `.git` directory anywhere, nothing is inside a repository |
| ProtectFiles.DevNullThenRm | config/claude/hooks/protect-files.py:44 | `>`, optional whitespace, `/dev/null`, then on the same line `&&` and later `rm` ending a word |
| ProtectFiles.TriggerAt | config/claude/hooks/protect-files.py:40-45 | one of the four trigger patterns matches at a position: `rm`, `rmdir` or `unlink` starting a word and followed by whitespace, or the `/dev/null` pattern |
| ProtectFiles.HasRmTrigger | config/claude/hooks/protect-files.py:47-49 | some trigger pattern matches somewhere; without one nothing is checked (see `ProtectFiles.RmRfCandidates`) |
| ProtectFiles.PathEnd | config/claude/hooks/protect-files.py:51 | the greedy run of path characters ends at the first other character |
| ProtectFiles.FlagLettersEnd | config/claude/hooks/protect-files.py:51 | the greedy run of `r`/`f`/`i`/`v` ends at the first other character |
| ProtectFiles.FlagGroupEnd | config/claude/hooks/protect-files.py:51 | a flag group `-[rfiv]+\s+` is found exactly when `-` is followed by at least one flag letter and the letter run is followed by whitespace; the group then ends at the end of that whitespace run |
| ProtectFiles.CaptureAt | config/claude/hooks/protect-files.py:51 | the optional quote and the captured run: none exactly when neither a path character nor a quote followed by one is there |
| ProtectFiles.FlagsThenCapture | config/claude/hooks/protect-files.py:51 | any capture after the flag groups lies within the text and starts no earlier |
| ProtectFiles.FlagsSkipped | config/claude/hooks/protect-files.py:51 | after all flag groups, a capture is taken if possible; otherwise the last group is given back and its `-` starts the capture |
| ProtectFiles.PathMatchAt | config/claude/hooks/protect-files.py:51 | a match at a position captures a non-empty path strictly after it |
| ProtectFiles.FindAllFrom | config/claude/hooks/protect-files.py:52 | every found path is a non-empty run of path characters |
| ProtectFiles.Candidates | config/claude/hooks/protect-files.py:51-52 | every candidate is a non-empty run of path characters |
| ProtectFiles.FirstOutside | config/claude/hooks/protect-files.py:54-60 | none exactly when every candidate is a flag or inside a repository; otherwise the first that is neither |
| ProtectFiles.RmOffender | config/claude/hooks/protect-files.py:32-60 | an offender needs a non-empty command with an rm trigger, is one of the candidates, does not start with `-`, and is outside every repository |
| ProtectFiles.CheckBashForRm | config/claude/hooks/protect-files.py:32-60 | the loop with `continue` and early `return` computes the first offender |
| ProtectFiles.AskMessage | config/claude/hooks/protect-files.py:84-87 | the reason names the path |
| ProtectFiles.ProtectDecision | config/claude/hooks/protect-files.py:70-93 | asks exactly for a Bash event with an offender, naming it; never blocks |
| ProtectFiles.ProtectExitCode | config/claude/hooks/protect-files.py:79-93 | always exit 0; a payload exactly when there is an offender |
| ProtectFiles.RmRfCandidates | config/claude/hooks/protect-files.py:40-52 | `rm -rf /tmp/x` triggers the check, and its only candidate is `/tmp/x` |
| ProtectFiles.RmLongFlagUnchecked | config/claude/hooks/protect-files.py:40-60 | `rm --force foo` triggers the check, but its only candidate is `--force`, a flag, so it is allowed whatever the file system holds and `foo` is never looked at |
| ProtectFiles.RmUpperFlagUnchecked | config/claude/hooks/protect-files.py:40-60 | likewise `rm -Rf foo`: `-Rf` is not a flag group of `[rfiv]`, so it is captured, passed over as a flag, and `foo` is never looked at |
| ProtectFiles.FlagCapturedAlone | config/claude/hooks/protect-files.py:40-52 | after `rm `, a word starting with `-` whose next character is not one of `r`, `f`, `i`, `v` is captured whole as a candidate, and is the only one when nothing after it can start an `rm` command |
| ProtectFiles.NoRmFrom | config/claude/hooks/protect-files.py:52 | `findall` finds nothing in a stretch holding no `r` and no `u` |
| ProtectFiles.RmOutsideRepoAsks | config/claude/hooks/protect-files.py:75-91 | with no repository anywhere, `rm -rf /tmp/x` asks, naming `/tmp/x` |
| ProtectFiles.RmInsideRepoAllowed | config/claude/hooks/protect-files.py:54-60 | `rm -rf /tmp/x` under a `/tmp/.git` is allowed |
| AutoFormat.NearestConfigDir | config/claude/hooks/auto-format.py:10-20 | the found directory is an ancestor holding a config, with no nearer one; none exactly when no ancestor, the root included, holds one |
| AutoFormat.FindConfigUpward | config/claude/hooks/auto-format.py:10-20 | the loop returns the nearest configured directory |
| AutoFormat.RootConfigFound | config/claude/hooks/auto-format.py:17-19 | a config at `/` is found from every directory |
| AutoFormat.DetectFormatter | config/claude/hooks/auto-format.py:23-52 | Biome if configured anywhere upward, else Prettier, else dprint, else none; every command ends with the file path |
| AutoFormat.Clip | config/claude/hooks/auto-format.py:77 | `s[:n]` is the prefix of length `min(n, len(s))` |
| AutoFormat.ShownError | config/claude/hooks/auto-format.py:73 | "unknown error" for empty output, else the output with `strip()` applied (see `Text.StripSlice`) |
| Text.StripSlice | config/claude/hooks/auto-format.py:73 | `strip()` keeps one slice of the text and drops only whitespace before and after it |
| AutoFormat.FormatWarning | config/claude/hooks/auto-format.py:71-80 | a warning exactly on a non-zero exit: the program, the code, and the shown error cut to its first 200 characters |
| AutoFormat.AutoFormatMessage | config/claude/hooks/auto-format.py:55-80 | a warning only for an existing file with a configured formatter that failed; for an existing file with a formatter, exactly that formatter's warning |
| AutoFormat.BlankErrorShownEmpty | config/claude/hooks/auto-format.py:73 | non-empty, all-whitespace error output is shown as an empty text |
| GitStatus.StatusLines | config/claude/hooks/task-completed.py:40 | no status line holds a line break (its line-by-line behaviour is `GitStatus.StatusLinesJoin`) |
| GitStatus.StatusLinesJoin | config/claude/hooks/task-completed.py:40 | break-free lines joined by `\n`, with no whitespace at the very start or end, come back as exactly those lines |
| GitStatus.TwoStatusLines | config/claude/hooks/task-completed.py:40 | the output `"A  " + a + "\n" + " M " + b` gives exactly the two lines, the second keeping its blank status column |
| GitStatus.Skipped | config/claude/hooks/task-completed.py:41-42 | a line is skipped exactly when it is shorter than four characters, the empty line included, so every line that is kept has a path column |
| GitStatus.PathOf | config/claude/hooks/task-completed.py:44 | the path is no longer than the line after its status columns and neither starts nor ends with `"` (its partners are `GitStatus.PathOfSlice` and `GitStatus.PathOfChars`) |
| GitStatus.PathOfSlice | config/claude/hooks/task-completed.py:44 | the path is one slice of the line from column 3 on, with only whitespace and `"` cut before and after it |
| Text.StripSliceOf | config/claude/hooks/task-completed.py:44 | stripping a slice of a text leaves a narrower slice, cutting only stripped characters on either side |
| GitStatus.PathOfChars | config/claude/hooks/task-completed.py:44 | every character of a path comes from the line after its status columns |
| GitStatus.PathOfNoLineBreak | config/claude/hooks/task-completed.py:44 | a path holds no line break |
| GitStatus.EndsWithAnyIff | config/claude/hooks/task-completed.py:45 | the suffix test holds exactly when some listed extension ends the path |
| GitStatus.ExtensionEndings | config/claude/hooks/task-completed.py:14-26 | no code extension ends in `d` or `n` |
| GitStatus.CodePathEnding | config/claude/hooks/task-completed.py:45 | a code path never ends in `d` or `n` |
| GitStatus.DocsAndConfigAreNotCode | config/claude/hooks/task-completed.py:13-26 | `.md` and `.json` files never count as code |
| GitStatus.LeadingBlankStatusShiftsPath | config/claude/hooks/task-completed.py:40-44 | for output `" M " + p` the only line is `"M " + p` and its path is `p` without its first character |
| TaskCompleted.CodeFiles | config/claude/hooks/task-completed.py:39-48 | no more files than lines, each a code path |
| TaskCompleted.UncommittedCodeFiles | config/claude/hooks/task-completed.py:29-48 | empty when `git status` fails; each file is a code path without line breaks |
| TaskCompleted.GetUncommittedCodeFiles | config/claude/hooks/task-completed.py:29-48 | the loop computes exactly the collected code files |
| TaskCompleted.CodeFilesAreParsedCodePaths | config/claude/hooks/task-completed.py:39-48 | the files are the parsed paths of the unskipped lines, filtered to code, in order |
| TaskCompleted.Listed | config/claude/hooks/task-completed.py:62 | at most ten entries, the n-th being `"  - "` and the n-th file |
| TaskCompleted.BlockMessage | config/claude/hooks/task-completed.py:62-74 | the block message; what it says, line by line, is `TaskCompleted.BlockMessageLines` |
| TaskCompleted.BlockMessageLines | config/claude/hooks/task-completed.py:62-74 | the message reads back line by line as title, blank, heading, the first ten files, the remainder line exactly when more than ten, blank, five instruction lines |
| TaskCompleted.TaskDecision | config/claude/hooks/task-completed.py:57-75 | blocks exactly when code files are uncommitted, with the message listing them; never asks |
| TaskCompleted.GitFailureAllows | config/claude/hooks/task-completed.py:36-37 | a failing `git status` never blocks |
| TeammateIdle.HasUncommittedCode | config/claude/hooks/teammate-idle.py:28-45 | the loop with `continue` and early `return` finds exactly whether some status line is a code line |
| TeammateIdle.CodeFilesEmpty | config/claude/hooks/teammate-idle.py:38-45 | no file is collected exactly when no line is a code line |
| TeammateIdle.HasCodeIffFiles | config/claude/hooks/teammate-idle.py:28-45 | the idle check finds code exactly when the completion check's file list is non-empty |
| TeammateIdle.IdleDecision | config/claude/hooks/teammate-idle.py:48-64 | blocks exactly when code is uncommitted, with the fixed reminder; never asks |
| TeammateIdle.IdleBlocksIffCompletionBlocks | config/claude/hooks/teammate-idle.py:54-62 | the idle and completion guards block on the same `git status` results, with the same exit status |

## Left out

- Reading the event JSON from stdin, printing, and `sys.exit` are not modelled. The event is a value, and the outcome is `Protocol.Render` of the decision.
- Malformed JSON is left out. `pre-commit.py`, `pre-push.py`, `pre-terraform.py` and `pre-install.py` would crash with a traceback. `protect-files.py` exits 1. The others ignore it.
- Subprocess calls are parameters: the current branch printed by `git rev-parse`, the return code and output of `git status`, and the formatter's return code and error output.
- A non-zero return code from `git status` is modelled: the task and idle hooks then see no uncommitted files. A missing `git` program raises an exception that crashes the hook; this is not modelled.
- AutoFormat.AutoFormatMessage: a formatter run that exceeds its 30-second timeout, or a formatter program that is missing, raises an exception that crashes the hook. Neither is modelled; the model always has a return code.
- Decoding the formatter's error bytes is left out. Its error output is a `string`.
- `os.path.realpath`, `os.path.expanduser`, `os.path.abspath` and symbolic links are not computed. `FileSystem.Fs.resolve` is a given function from the text of a path to its components.
- Non-ASCII word characters are left out. `\w` in `Text.IsWordChar` covers ASCII letters, digits and `_` only. `\s` and `str.isspace()` are modelled in full.
- The pip pattern's five lookaheads are replaced by an equivalent single character test. `PreInstall.PipLookaheadsRedundant` proves the two the same.
- `pre-pr.py` is not part of this model. It blocks unconditionally and has no logic to verify.
- Hook registration and agent prompts are outside the hooks' code.
- The JSON wording of the formatter warning is left out. Only its `message` text is modelled.
- PreInstall.InstallIsNotAdd: it rules out a match only at the position of the tool. Whole-command lemmas cover commands of two, three or four words (`BareInvocationNotFlagged`, `ForeignSubcommandNotFlagged`, `FlagInvocationNotFlagged`, `FlagThenValueNotFlagged`, `GluedToolNotFlagged`). Longer commands, or commands joined with `&&` or `;`, have no such lemma.
