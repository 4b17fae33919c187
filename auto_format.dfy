/**
 * The formatter hook, run after a file is edited or written: it looks for
 * a formatter configuration from the file's directory upward (Biome first,
 * then Prettier, then dprint), runs the formatter it finds, and reports a
 * failed run as a warning. The formatter run itself is outside the model;
 * its return code and error output are parameters.
 */
module AutoFormat {
  import opened Wrappers
  import opened Text
  import opened FileSystem

  // ---------------------------------------------------------------------
  // find_config_upward

  /** `os.path.exists(os.path.join(d, name))` for one of `names`. */
  predicate HasConfig(fs: Fs, d: Path, names: seq<string>) {
    exists n | 0 <= n < |names| :: PathExists(fs, d + [names[n]])
  }

  /** The nearest directory from `p` upward, the root included, holding
      one of `names`. */
  function NearestConfigDir(fs: Fs, p: Path, names: seq<string>): (r: Option<Path>)
    ensures r.Some? ==> IsAncestorOrSelf(r.value, p) && HasConfig(fs, r.value, names)
    ensures r.Some? ==> forall k | |r.value| < k <= |p| :: !HasConfig(fs, p[..k], names)
    ensures r.None? <==> forall k | 0 <= k <= |p| :: !HasConfig(fs, p[..k], names)
    decreases |p|
  {
    assert p[..|p|] == p;
    if HasConfig(fs, p, names) then Some(p)
    else if p == [] then None
    else
      var q := Dirname(p);
      assert forall k | 0 <= k <= |q| :: q[..k] == p[..k];
      NearestConfigDir(fs, q, names)
  }

  /** The walk: test every name in the current directory, then move to
      the parent, and give up once the parent is the directory itself. */
  method FindConfigUpward(fs: Fs, start: Path, names: seq<string>) returns (r: Option<Path>)
    ensures r == NearestConfigDir(fs, start, names)
  {
    var current := start;
    while true
      invariant NearestConfigDir(fs, current, names) == NearestConfigDir(fs, start, names)
      decreases |current|
    {
      for n := 0 to |names|
        invariant forall m | 0 <= m < n :: !PathExists(fs, current + [names[m]])
      {
        if PathExists(fs, current + [names[n]]) {
          return Some(current);
        }
      }
      var parent := Dirname(current);
      if parent == current {
        return None;
      }
      current := parent;
    }
  }

  /** Unlike the deletion guard's walk, this one tests the root: a
      configuration at `/` is found from anywhere. */
  lemma RootConfigFound(fs: Fs, p: Path, names: seq<string>)
    requires HasConfig(fs, [], names)
    ensures NearestConfigDir(fs, p, names).Some?
  {
    assert p[..0] == [];
  }

  // ---------------------------------------------------------------------
  // detect_formatter

  const BiomeConfigs := ["biome.json", "biome.jsonc"]

  const PrettierConfigs := [
    ".prettierrc", ".prettierrc.json", ".prettierrc.yml", ".prettierrc.yaml",
    ".prettierrc.toml", ".prettierrc.js", ".prettierrc.cjs", ".prettierrc.mjs",
    "prettier.config.js", "prettier.config.cjs", "prettier.config.mjs"
  ]

  const DprintConfigs := ["dprint.json"]

  function BiomeCommand(filePath: string): seq<string> {
    ["npx", "@biomejs/biome", "format", "--write", filePath]
  }

  function PrettierCommand(filePath: string): seq<string> {
    ["npx", "prettier", "--write", filePath]
  }

  function DprintCommand(filePath: string): seq<string> {
    ["dprint", "fmt", filePath]
  }

  /** The directory the search starts from: that of the absolute file
      path. */
  function SearchStart(fs: Fs, filePath: string): Path {
    Dirname(fs.resolve(filePath))
  }

  /** A configuration for `names` somewhere from the file's directory up
      to the root. A found directory is a non-empty path string, so its
      truth test is the same as its presence. */
  predicate Configured(fs: Fs, filePath: string, names: seq<string>) {
    NearestConfigDir(fs, SearchStart(fs, filePath), names).Some?
  }

  /** The formatter command for a file: Biome wins over Prettier and
      Prettier over dprint, however near each configuration is; the
      command always ends with the file path. */
  function DetectFormatter(fs: Fs, filePath: string): (cmd: Option<seq<string>>)
    ensures cmd.Some? ==> |cmd.value| >= 3 && cmd.value[|cmd.value| - 1] == filePath
    ensures cmd == Some(BiomeCommand(filePath)) <==> Configured(fs, filePath, BiomeConfigs)
    ensures cmd == Some(PrettierCommand(filePath)) <==>
      !Configured(fs, filePath, BiomeConfigs) && Configured(fs, filePath, PrettierConfigs)
    ensures cmd == Some(DprintCommand(filePath)) <==>
      !Configured(fs, filePath, BiomeConfigs) && !Configured(fs, filePath, PrettierConfigs)
      && Configured(fs, filePath, DprintConfigs)
    ensures cmd.None? <==>
      !Configured(fs, filePath, BiomeConfigs) && !Configured(fs, filePath, PrettierConfigs)
      && !Configured(fs, filePath, DprintConfigs)
  {
    if Configured(fs, filePath, BiomeConfigs) then Some(BiomeCommand(filePath))
    else if Configured(fs, filePath, PrettierConfigs) then Some(PrettierCommand(filePath))
    else if Configured(fs, filePath, DprintConfigs) then Some(DprintCommand(filePath))
    else None
  }

  // ---------------------------------------------------------------------
  // The warning after a failed run

  /** `s[:n]` */
  function Clip(s: string, n: nat): (r: string)
    ensures |r| <= n && |r| <= |s| && r == s[..|r|]
    ensures |s| <= n ==> r == s
    ensures |s| >= n ==> |r| == n
  {
    if |s| <= n then s else s[..n]
  }

  const MaxShownError := 200

  /** The error text the warning shows: "unknown error" when the formatter
      wrote nothing, its stripped error output otherwise. */
  function ShownError(stderr: string): (e: string)
    ensures stderr == [] ==> e == "unknown error"
    ensures stderr != [] ==> e == Strip(stderr, Whitespace)
  {
    if stderr == [] then "unknown error" else Strip(stderr, Whitespace)
  }

  function WarningHead(program: string, returnCode: int): string {
    "Auto-format warning: " + program + " exited " + IntToString(returnCode) + ": "
  }

  /** The message printed after running `cmd`: none on success; otherwise
      the program, its return code, and at most 200 characters of what it
      reported. */
  function FormatWarning(cmd: seq<string>, returnCode: int, stderr: string): (msg: Option<string>)
    requires |cmd| >= 1
    ensures msg.Some? <==> returnCode != 0
    ensures msg.Some? ==>
      var e := ShownError(stderr);
      msg.value == WarningHead(cmd[0], returnCode) + e[..if |e| < MaxShownError then |e| else MaxShownError]
  {
    if returnCode == 0 then None
    else Some(WarningHead(cmd[0], returnCode) + Clip(ShownError(stderr), MaxShownError))
  }

  /** The whole hook for one event, given how the formatter run ended: no
      message unless the event names an existing file, some formatter is
      configured for it, and that formatter failed. */
  function AutoFormatMessage(fs: Fs, filePath: string, returnCode: int, stderr: string): (msg: Option<string>)
    ensures msg.Some? ==> filePath != "" && fs.resolve(filePath) in fs.files
    ensures msg.Some? ==> DetectFormatter(fs, filePath).Some? && returnCode != 0
    ensures DetectFormatter(fs, filePath).None? ==> msg.None?
    ensures filePath != "" && fs.resolve(filePath) in fs.files && DetectFormatter(fs, filePath).Some? ==>
      msg == FormatWarning(DetectFormatter(fs, filePath).value, returnCode, stderr)
  {
    if filePath == "" || fs.resolve(filePath) !in fs.files then None
    else
      match DetectFormatter(fs, filePath)
      case None => None
      case Some(cmd) => FormatWarning(cmd, returnCode, stderr)
  }

  /** A failing formatter whose error output is only whitespace is reported
      with an empty reason, not "unknown error": the fallback applies only
      to output that is empty before stripping. */
  lemma BlankErrorShownEmpty(stderr: string)
    requires stderr != [] && forall n | 0 <= n < |stderr| :: IsSpace(stderr[n])
    ensures ShownError(stderr) == ""
  {
    TrimLeftAll(stderr, Whitespace);
  }
}
