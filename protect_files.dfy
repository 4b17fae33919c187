/**
 * The deletion guard: a shell command that removes a path lying outside
 * every git work tree makes the host ask the user first. The command passes
 * a cheap gate (four trigger patterns), then the removal targets are
 * extracted with one more pattern, and the first target that is not a flag
 * and not inside a repository is reported.
 */
module ProtectFiles {
  import opened Wrappers
  import opened Text
  import opened Protocol
  import opened FileSystem

  // ---------------------------------------------------------------------
  // is_inside_git_repo

  /** Where the walk starts: the resolved path itself when it is a
      directory, its parent otherwise. */
  function StartDir(fs: Fs, resolved: Path): (d: Path)
    ensures IsAncestorOrSelf(d, resolved)
    ensures IsDir(fs, resolved) ==> d == resolved
    ensures !IsDir(fs, resolved) ==> d == Dirname(resolved)
  {
    if IsDir(fs, resolved) then resolved else Dirname(resolved)
  }

  /** `os.path.isdir(os.path.join(p, ".git"))` */
  predicate HasGitDir(fs: Fs, p: Path) {
    IsDir(fs, p + [".git"])
  }

  /** Some directory from `p` upward holds `.git`, the root excluded: the
      walk stops as soon as `dirname(current) == current`. */
  predicate GitMarkerAbove(fs: Fs, p: Path)
    decreases |p|
  {
    p != [] && (HasGitDir(fs, p) || GitMarkerAbove(fs, Dirname(p)))
  }

  /** The answer of `is_inside_git_repo(path)`; the empty path counts as
      inside. */
  predicate InsideGitRepo(fs: Fs, path: string) {
    path == "" || GitMarkerAbove(fs, StartDir(fs, fs.resolve(path)))
  }

  /** The walk up from the start directory, one parent at a time. */
  method IsInsideGitRepo(fs: Fs, path: string) returns (inside: bool)
    ensures inside == InsideGitRepo(fs, path)
    ensures path == "" ==> inside
  {
    if path == "" {
      return true;
    }
    var resolved := fs.resolve(path);
    var current := if IsDir(fs, resolved) then resolved else Dirname(resolved);
    while current != Dirname(current)
      invariant GitMarkerAbove(fs, current) == GitMarkerAbove(fs, StartDir(fs, resolved))
      decreases |current|
    {
      if IsDir(fs, current + [".git"]) {
        return true;
      }
      current := Dirname(current);
    }
    return false;
  }

  /** The walk answers yes exactly when one of the directories `p[..k]`,
      for `1 <= k <= |p|`, holds `.git`: every directory from the start
      upward except the root. */
  lemma {:induction false} GitMarkerAboveExactly(fs: Fs, p: Path)
    ensures GitMarkerAbove(fs, p) <==> exists k | 1 <= k <= |p| :: HasGitDir(fs, p[..k])
    decreases |p|
  {
    if p != [] {
      var q := Dirname(p);
      GitMarkerAboveExactly(fs, q);
      assert forall k | 1 <= k <= |q| :: q[..k] == p[..k];
      assert p[..|p|] == p;
    }
  }

  /** The root is never tested: a `.git` directory at `/` changes no
      answer. */
  lemma {:induction false} RootMarkerIgnored(fs: Fs, p: Path)
    ensures GitMarkerAbove(fs, p) == GitMarkerAbove(fs.(dirs := fs.dirs - {[".git"]}), p)
    decreases |p|
  {
    if p != [] {
      assert p + [".git"] != [".git"] by {
        assert |p + [".git"]| >= 2;
      }
      RootMarkerIgnored(fs, Dirname(p));
    }
  }

  // ---------------------------------------------------------------------
  // The trigger gate

  /** `\bW\s+` found at `i`. */
  predicate WordThenSpace(s: string, i: nat, w: string)
    requires i <= |s|
  {
    WordBoundary(s, i) && KeywordThenSpace(s, i, w)
  }

  /** `.` in a regular expression without DOTALL: anything but `\n`. */
  predicate NoNewline(s: string) {
    forall n | 0 <= n < |s| :: s[n] != '\n'
  }

  // The fourth trigger found at `i`: `>`, any whitespace, `/dev/null`,
  // any text without a newline, `&&`, any text without a newline, then `rm`
  // followed by a word boundary. A shorter whitespace run would leave
  // whitespace where `/` is needed, so only the longest can match; the two
  // stretches of text are free choices `k` and `m`.
  predicate DevNullThenRm(s: string, i: nat) {
    i < |s| && s[i] == '>'
    && var j := SkipSpaces(s, i + 1);
    StartsAt(s, j, "/dev/null")
    && exists k, m | j + 9 <= k <= |s| && k + 2 <= m <= |s| - 2 ::
      NoNewline(s[j + 9..k]) && StartsAt(s, k, "&&")
      && NoNewline(s[k + 2..m]) && StartsAt(s, m, "rm") && WordBoundary(s, m + 2)
  }

  /** One of the four trigger patterns matches at `i`. */
  predicate TriggerAt(s: string, i: nat)
    requires i <= |s|
  {
    WordThenSpace(s, i, "rm") || WordThenSpace(s, i, "rmdir")
    || WordThenSpace(s, i, "unlink") || DevNullThenRm(s, i)
  }

  /** `any(re.search(p, command) for p in rm_patterns)` */
  predicate HasRmTrigger(s: string) {
    exists i | 0 <= i <= |s| :: TriggerAt(s, i)
  }

  // ---------------------------------------------------------------------
  // Extracting the targets:
  //   (?:rm|rmdir|unlink)\s+(?:-[rfiv]+\s+)*["']?([^"'\s;|&]+)

  /** The class `[^"'\s;|&]` of a captured path's characters. */
  predicate IsPathChar(c: char) {
    !IsSpace(c) && c != '"' && c != '\'' && c != ';' && c != '|' && c != '&'
  }

  predicate IsQuote(c: char) {
    c == '"' || c == '\''
  }

  /** The class `[rfiv]` of a flag group's letters. */
  predicate IsRmFlag(c: char) {
    c == 'r' || c == 'f' || c == 'i' || c == 'v'
  }

  /** A non-empty run of path characters. */
  predicate IsPathWord(p: string) {
    p != [] && forall n | 0 <= n < |p| :: IsPathChar(p[n])
  }

  /** The end of the run of path characters from `i`. */
  function PathEnd(s: string, i: nat): (e: nat)
    requires i <= |s|
    ensures i <= e <= |s| && (forall n | i <= n < e :: IsPathChar(s[n]))
    ensures e < |s| ==> !IsPathChar(s[e])
    decreases |s| - i
  {
    if i < |s| && IsPathChar(s[i]) then PathEnd(s, i + 1) else i
  }

  /** The end of the run of `[rfiv]` letters from `i`. */
  function FlagLettersEnd(s: string, i: nat): (e: nat)
    requires i <= |s|
    ensures i <= e <= |s| && (forall n | i <= n < e :: IsRmFlag(s[n]))
    ensures e < |s| ==> !IsRmFlag(s[e])
    decreases |s| - i
  {
    if i < |s| && IsRmFlag(s[i]) then FlagLettersEnd(s, i + 1) else i
  }

  /** One flag group `-[rfiv]+\s+` at `j`, and where the text after it
      starts. Backtracking inside a group never helps: fewer letters would
      leave a letter where whitespace is needed, and fewer whitespace
      characters would leave one where `-`, a quote or a path character is
      needed. */
  function FlagGroupEnd(s: string, j: nat): (r: Option<nat>)
    requires j <= |s|
    ensures r.Some? <==>
      j + 1 < |s| && s[j] == '-' && IsRmFlag(s[j + 1])
      && FlagLettersEnd(s, j + 1) < |s| && IsSpace(s[FlagLettersEnd(s, j + 1)])
    ensures r.Some? ==>
      var e := FlagLettersEnd(s, j + 1);
      e < r.value <= |s| && (forall n | e <= n < r.value :: IsSpace(s[n]))
      && (r.value < |s| ==> !IsSpace(s[r.value]))
  {
    if j < |s| && s[j] == '-' then
      var e := FlagLettersEnd(s, j + 1);
      if e > j + 1 && e < |s| && IsSpace(s[e]) then
        SkipSpacesRun(s, e);
        Some(SkipSpaces(s, e))
      else None
    else None
  }

  /** A captured path, as indices into the command. */
  datatype Capture = Capture(start: nat, end: nat)

  /** The text of a capture lies within `s` and consists of path
      characters. */
  predicate CaptureIn(s: string, c: Capture) {
    c.start < c.end <= |s| && forall n | c.start <= n < c.end :: IsPathChar(s[n])
  }

  /** `["']?([^"'\s;|&]+)` at `a`: an optional quote, then the longest run
      of path characters. */
  function CaptureAt(s: string, a: nat): (r: Option<Capture>)
    requires a <= |s|
    ensures r.Some? ==> CaptureIn(s, r.value)
    ensures r.Some? ==> r.value.start == a || (r.value.start == a + 1 && IsQuote(s[a]))
    ensures r.None? <==> a == |s| || (!IsPathChar(s[a]) && (!IsQuote(s[a]) || a + 1 == |s| || !IsPathChar(s[a + 1])))
  {
    if a + 1 < |s| && IsQuote(s[a]) && IsPathChar(s[a + 1]) then Some(Capture(a + 1, PathEnd(s, a + 1)))
    else if a < |s| && IsPathChar(s[a]) then Some(Capture(a, PathEnd(s, a)))
    else None
  }

  /** `(?:-[rfiv]+\s+)*` and then the capture, as the regular-expression
      engine runs it: the star takes another group whenever it can, and
      gives it back only when the rest fails after it. */
  function FlagsThenCapture(s: string, j: nat): (r: Option<Capture>)
    requires j <= |s|
    ensures r.Some? ==> j <= r.value.start && CaptureIn(s, r.value)
    decreases |s| - j
  {
    match FlagGroupEnd(s, j)
    case Some(k) =>
      var later := FlagsThenCapture(s, k);
      if later.Some? then later else CaptureAt(s, j)
    case None => CaptureAt(s, j)
  }

  /** Where the longest chain of flag groups from `j` ends. */
  function FlagsEnd(s: string, j: nat): (e: nat)
    requires j <= |s|
    ensures j <= e <= |s|
    decreases |s| - j
  {
    match FlagGroupEnd(s, j)
    case Some(k) => FlagsEnd(s, k)
    case None => j
  }

  /** The flag groups are skipped: when the capture succeeds after all of
      them, that is the capture; otherwise the engine backs up into the
      last group and captures it, starting with its `-`, or fails when
      there was no group to give back. */
  lemma {:induction false} FlagsSkipped(s: string, j: nat)
    requires j <= |s|
    ensures CaptureAt(s, FlagsEnd(s, j)).Some? ==> FlagsThenCapture(s, j) == CaptureAt(s, FlagsEnd(s, j))
    ensures CaptureAt(s, FlagsEnd(s, j)).None? ==>
      (FlagsThenCapture(s, j).None? <==> FlagsEnd(s, j) == j)
    ensures CaptureAt(s, FlagsEnd(s, j)).None? && FlagsThenCapture(s, j).Some? ==>
      s[FlagsThenCapture(s, j).value.start] == '-'
    decreases |s| - j
  {
    match FlagGroupEnd(s, j)
    case Some(k) =>
      FlagsSkipped(s, k);
    case None =>
  }

  const RmCommands := ["rm", "rmdir", "unlink"]

  /** The whole extraction pattern tried at `i`. `(?:rm|rmdir|unlink)\s+`
      is `KeywordEnd` followed by the longest whitespace run, for the same
      reasons as in the dependency guard. */
  function PathMatchAt(s: string, i: nat): (r: Option<Capture>)
    requires i <= |s|
    ensures r.Some? ==> i < r.value.start && CaptureIn(s, r.value)
  {
    match KeywordEnd(RmCommands, s, i)
    case None => None
    case Some(e) => FlagsThenCapture(s, SkipSpaces(s, e))
  }

  /** `re.findall` from `pos`: the captured texts of successive
      non-overlapping matches, the search resuming where a match ends. */
  function FindAllFrom(s: string, pos: nat): (paths: seq<string>)
    requires pos <= |s|
    ensures forall n | 0 <= n < |paths| :: IsPathWord(paths[n])
    decreases |s| - pos
  {
    match PathMatchAt(s, pos)
    case Some(c) =>
      var p := s[c.start..c.end];
      assert IsPathWord(p) by {
        forall n | 0 <= n < |p| ensures IsPathChar(p[n]) {
          assert p[n] == s[c.start + n];
        }
      }
      [p] + FindAllFrom(s, c.end)
    case None => if pos < |s| then FindAllFrom(s, pos + 1) else []
  }

  /** `re.findall(path_pattern, command)` */
  function Candidates(command: string): (paths: seq<string>)
    ensures forall n | 0 <= n < |paths| :: IsPathWord(paths[n])
  {
    FindAllFrom(command, 0)
  }

  // ---------------------------------------------------------------------
  // check_bash_for_rm

  /** A candidate the loop passes over: a flag, or a path inside a
      repository. */
  predicate Passed(fs: Fs, path: string) {
    StartsWith(path, "-") || InsideGitRepo(fs, path)
  }

  /** The first candidate, left to right, that is not passed over. */
  function FirstOutside(fs: Fs, paths: seq<string>): (r: Option<string>)
    ensures r.None? <==> forall n | 0 <= n < |paths| :: Passed(fs, paths[n])
    ensures r.Some? ==> exists n | 0 <= n < |paths| ::
      paths[n] == r.value && !Passed(fs, paths[n]) && forall m | 0 <= m < n :: Passed(fs, paths[m])
  {
    if paths == [] then None
    else if !Passed(fs, paths[0]) then Some(paths[0])
    else
      var r := FirstOutside(fs, paths[1..]);
      if r.Some? then
        var n :| 0 <= n < |paths[1..]| && paths[1..][n] == r.value && !Passed(fs, paths[1..][n])
          && forall m | 0 <= m < n :: Passed(fs, paths[1..][m]);
        assert paths[n + 1] == r.value && !Passed(fs, paths[n + 1]);
        assert forall m | 0 <= m < n + 1 :: Passed(fs, paths[m]) by {
          forall m | 0 <= m < n + 1 ensures Passed(fs, paths[m]) {
            if m > 0 {
              assert paths[m] == paths[1..][m - 1];
            }
          }
        }
        r
      else
        assert forall n | 0 <= n < |paths| :: Passed(fs, paths[n]) by {
          forall n | 0 <= n < |paths| ensures Passed(fs, paths[n]) {
            if n > 0 {
              assert paths[n] == paths[1..][n - 1];
            }
          }
        }
        r
  }

  /** The path `check_bash_for_rm` reports: it is one of the extracted
      candidates, a whitespace-free run of path characters, not a flag, and
      outside every repository; and there is none unless a trigger
      matched. */
  function RmOffender(fs: Fs, command: string): (r: Option<string>)
    ensures r.Some? ==> command != "" && HasRmTrigger(command)
    ensures r.Some? ==> r.value in Candidates(command) && IsPathWord(r.value)
    ensures r.Some? ==> !StartsWith(r.value, "-") && !InsideGitRepo(fs, r.value)
  {
    if command == "" then None
    else if !HasRmTrigger(command) then None
    else FirstOutside(fs, Candidates(command))
  }

  /** The loop over the candidates, skipping flags and returning the first
      path outside a repository. */
  method CheckBashForRm(fs: Fs, command: string) returns (r: Option<string>)
    ensures r == RmOffender(fs, command)
  {
    if command == "" {
      return None;
    }
    if !HasRmTrigger(command) {
      return None;
    }
    var matches := Candidates(command);
    for n := 0 to |matches|
      invariant FirstOutside(fs, matches[n..]) == FirstOutside(fs, matches)
    {
      assert matches[n..][1..] == matches[n + 1..];
      var path := matches[n];
      if StartsWith(path, "-") {
        continue;
      }
      var inside := IsInsideGitRepo(fs, path);
      if !inside {
        return Some(path);
      }
    }
    return None;
  }

  // ---------------------------------------------------------------------
  // The decision

  function AskMessage(path: string): (msg: string)
    ensures Contains(msg, path)
  {
    var head := "This command will delete files outside any git repository: ";
    var tail := "\nDeletions are only allowed within git-managed directories.";
    ContainsMiddle(head, path, tail);
    head + path + tail
  }

  /** The hook's decision: only a shell command with an offending target
      asks, naming that target. A reported path is never empty, so the
      truth test on it is the same as its presence. */
  function ProtectDecision(fs: Fs, event: Event): (d: Decision)
    ensures !d.Block?
    ensures d.Ask? <==> event.toolName == "Bash" && RmOffender(fs, event.command).Some?
    ensures d.Ask? ==> d.reason == AskMessage(RmOffender(fs, event.command).value)
  {
    if event.toolName == "Bash" then
      match RmOffender(fs, event.command)
      case Some(path) => Ask(AskMessage(path))
      case None => Allow
    else Allow
  }

  /** The guard always exits 0; an ask prints the payload. */
  lemma ProtectExitCode(fs: Fs, event: Event)
    ensures Render(ProtectDecision(fs, event)).exitCode == 0
    ensures Render(ProtectDecision(fs, event)).stdout.Some? <==>
      event.toolName == "Bash" && RmOffender(fs, event.command).Some?
  {
  }

  /** `rm -rf /tmp/x` passes the gate, and its only candidate is `/tmp/x`:
      the flag group is skipped. */
  lemma RmRfCandidates(s: string)
    requires s == "rm -rf /tmp/x"
    ensures HasRmTrigger(s) && Candidates(s) == ["/tmp/x"]
  {
    RmRfLayout(s);
    assert TriggerAt(s, 0);
    RmRfFlags(s);
    assert FindAllFrom(s, 13) == [];
    assert s[7..13] == "/tmp/x";
  }

  lemma RmRfLayout(s: string)
    requires s == "rm -rf /tmp/x"
    ensures |s| == 13 && s[..2] == "rm" && s[2] == ' ' && s[3] == '-' && s[4] == 'r' && s[5] == 'f' && s[6] == ' '
    ensures forall n | 7 <= n < 13 :: IsPathChar(s[n])
  {
  }

  lemma RmRfFlags(s: string)
    requires |s| == 13 && s[..2] == "rm" && s[2] == ' ' && s[3] == '-' && s[4] == 'r' && s[5] == 'f' && s[6] == ' '
    requires forall n | 7 <= n < 13 :: IsPathChar(s[n])
    ensures PathMatchAt(s, 0) == Some(Capture(7, 13))
  {
    assert StartsAt(s, 0, "rm");
    assert KeywordEnd(RmCommands, s, 0) == Some(2);
    assert SkipSpaces(s, 2) == 3;
    assert FlagLettersEnd(s, 4) == 6;
    assert SkipSpaces(s, 6) == 7;
    assert FlagGroupEnd(s, 3) == Some(7);
    assert PathEnd(s, 7) == 13;
    assert FlagGroupEnd(s, 7) == None;
    assert CaptureAt(s, 7) == Some(Capture(7, 13));
    assert FlagsThenCapture(s, 7) == Some(Capture(7, 13));
    assert FlagsThenCapture(s, 3) == Some(Capture(7, 13));
  }

  /** With no repository anywhere, `rm -rf /tmp/x` asks, naming `/tmp/x`. */
  lemma RmOutsideRepoAsks(fs: Fs, e: Event)
    requires e.toolName == "Bash" && e.command == "rm -rf /tmp/x"
    requires forall p :: !HasGitDir(fs, p)
    ensures ProtectDecision(fs, e) == Ask(AskMessage("/tmp/x"))
  {
    RmRfOffender(fs, e.command);
  }

  lemma RmRfOffender(fs: Fs, s: string)
    requires s == "rm -rf /tmp/x"
    requires forall p :: !HasGitDir(fs, p)
    ensures RmOffender(fs, s) == Some("/tmp/x")
  {
    RmRfCandidates(s);
    StartsWithChar("/tmp/x", '-');
    NoMarkerWithoutRepository(fs, StartDir(fs, fs.resolve("/tmp/x")));
    assert FirstOutside(fs, ["/tmp/x"]) == Some("/tmp/x");
  }

  lemma {:induction false} NoMarkerWithoutRepository(fs: Fs, p: Path)
    requires forall q :: !HasGitDir(fs, q)
    ensures !GitMarkerAbove(fs, p)
    decreases |p|
  {
    if p != [] {
      NoMarkerWithoutRepository(fs, Dirname(p));
    }
  }

  /** No `rm`, `rmdir` or `unlink` can start at `i` when `s[i]` is neither
      `r` nor `u`. */
  lemma NoRmKeywordAt(s: string, i: nat)
    requires i < |s| && s[i] != 'r' && s[i] != 'u'
    ensures KeywordEnd(RmCommands, s, i) == None
  {
    StartsAtChar(s, i, "rm", 0);
    StartsAtChar(s, i, "rmdir", 0);
    StartsAtChar(s, i, "unlink", 0);
    assert !KeywordThenSpace(s, i, "rm") && !KeywordThenSpace(s, i, "rmdir") && !KeywordThenSpace(s, i, "unlink");
    assert RmCommands[1..] == ["rmdir", "unlink"] && RmCommands[1..][1..] == ["unlink"];
    assert KeywordEnd(["unlink"], s, i) == KeywordEnd([], s, i);
  }

  /** `findall` finds nothing in a tail holding no `r` and no `u`. */
  lemma {:induction false} NoRmFrom(s: string, pos: nat)
    requires pos <= |s|
    requires forall n | pos <= n < |s| :: s[n] != 'r' && s[n] != 'u'
    ensures FindAllFrom(s, pos) == []
    decreases |s| - pos
  {
    if pos < |s| {
      NoRmKeywordAt(s, pos);
      NoRmFrom(s, pos + 1);
    }
  }

  /** `rm --force foo` passes the gate, but the capture takes `--force`
      (only lower-case short flags form a skipped group), so that flag is the
      only candidate: it is passed over as a flag and `foo` is never checked,
      whatever the file system holds. */
  lemma RmLongFlagUnchecked(fs: Fs, s: string)
    requires s == "rm --force foo"
    ensures HasRmTrigger(s) && Candidates(s) == ["--force"]
    ensures RmOffender(fs, s) == None
  {
    RmLongFlagLayout(s);
    FlagCapturedAlone(s, 10);
    FlagOnlyCandidateAllowed(fs, s, "--force");
  }

  lemma RmLongFlagLayout(s: string)
    requires s == "rm --force foo"
    ensures |s| == 14 && s[..2] == "rm" && s[2] == ' ' && s[3] == '-' && s[4] == '-' && s[10] == ' '
    ensures forall n | 3 <= n < 10 :: IsPathChar(s[n])
    ensures forall n | 10 <= n < 14 :: s[n] != 'r' && s[n] != 'u'
    ensures s[3..10] == "--force"
  {
  }

  /** The same for `rm -Rf foo`: `R` is not one of the flag letters, so
      `-Rf` is captured, passed over as a flag, and `foo` is never checked. */
  lemma RmUpperFlagUnchecked(fs: Fs, s: string)
    requires s == "rm -Rf foo"
    ensures HasRmTrigger(s) && Candidates(s) == ["-Rf"]
    ensures RmOffender(fs, s) == None
  {
    RmUpperFlagLayout(s);
    FlagCapturedAlone(s, 6);
    FlagOnlyCandidateAllowed(fs, s, "-Rf");
  }

  lemma RmUpperFlagLayout(s: string)
    requires s == "rm -Rf foo"
    ensures |s| == 10 && s[..2] == "rm" && s[2] == ' ' && s[3] == '-' && s[4] == 'R' && s[6] == ' '
    ensures forall n | 3 <= n < 6 :: IsPathChar(s[n])
    ensures forall n | 6 <= n < 10 :: s[n] != 'r' && s[n] != 'u'
    ensures s[3..6] == "-Rf"
  {
  }

  /** A command whose only candidate is a flag has no offender. */
  lemma FlagOnlyCandidateAllowed(fs: Fs, s: string, w: string)
    requires Candidates(s) == [w] && w != [] && w[0] == '-'
    ensures RmOffender(fs, s) == None
  {
    StartsWithChar(w, '-');
  }

  /** `rm ` and then a word starting with `-` that is no flag group: the
      word is captured, and it is the only candidate when no `r` or `u`
      follows it. */
  lemma FlagCapturedAlone(s: string, e: nat)
    requires 4 < e < |s| && s[..2] == "rm" && s[2] == ' ' && s[3] == '-' && !IsRmFlag(s[4])
    requires forall n | 3 <= n < e :: IsPathChar(s[n])
    requires !IsPathChar(s[e])
    requires forall n | e <= n < |s| :: s[n] != 'r' && s[n] != 'u'
    ensures HasRmTrigger(s) && Candidates(s) == [s[3..e]]
  {
    assert StartsAt(s, 0, "rm");
    assert TriggerAt(s, 0);
    assert KeywordEnd(RmCommands, s, 0) == Some(2);
    assert SkipSpaces(s, 2) == 3;
    assert FlagGroupEnd(s, 3) == None;
    PathEndAt(s, 3, e);
    assert PathMatchAt(s, 0) == Some(Capture(3, e));
    NoRmFrom(s, e);
  }

  /** The greedy run of path characters ends at the first other one. */
  lemma PathEndAt(s: string, i: nat, e: nat)
    requires i <= e < |s| && !IsPathChar(s[e])
    requires forall n | i <= n < e :: IsPathChar(s[n])
    ensures PathEnd(s, i) == e
  {
  }

  /** When `/tmp/x` resolves into a work tree rooted at `/tmp`, the same
      command is let through. */
  lemma RmInsideRepoAllowed(fs: Fs, e: Event)
    requires e.toolName == "Bash" && e.command == "rm -rf /tmp/x"
    requires fs.resolve("/tmp/x") == ["tmp", "x"] && HasGitDir(fs, ["tmp"])
    ensures ProtectDecision(fs, e) == Allow
  {
    RmRfCandidates(e.command);
    var start := StartDir(fs, ["tmp", "x"]);
    GitMarkerAboveExactly(fs, start);
    assert start[..1] == ["tmp"];
    assert InsideGitRepo(fs, "/tmp/x");
    assert FirstOutside(fs, ["/tmp/x"]) == None;
  }
}
