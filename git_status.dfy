/**
 * Reading `git status --porcelain` the way the task-completion and idle hooks
 * do: the whole output is stripped, split into lines, lines shorter than four
 * characters are skipped, and a line's path is `line[3:]` with whitespace and
 * then double quotes stripped from both ends.
 */
module GitStatus {
  import opened Text

  /** The return code and captured stdout of `git status --porcelain`. */
  datatype GitResult = GitResult(returnCode: int, stdout: string)

  /** The lines the hooks loop over: `stdout.strip().splitlines()`. */
  function StatusLines(stdout: string): (lines: seq<string>)
    ensures forall l | l in lines :: NoLineBreak(l)
  {
    SplitLines(Strip(stdout, Whitespace))
  }

  /** Lines the hooks skip: `not line or len(line) < 4`. */
  predicate Skipped(line: string) {
    |line| < 4
  }

  /** `line[3:].strip().strip('"')`: the path after the two status columns
      and their separating space. */
  function PathOf(line: string): (path: string)
    requires !Skipped(line)
    ensures |path| <= |line| - 3
    ensures path == [] || (path[0] != '"' && path[|path| - 1] != '"')
  {
    Strip(Strip(line[3..], Whitespace), Only('"'))
  }

  /** The path is the slice of the line left once whitespace and then double
      quotes are cut from both ends of what follows the status columns. */
  lemma PathOfSlice(line: string) returns (a: nat, b: nat)
    requires !Skipped(line)
    ensures 3 <= a <= b <= |line| && PathOf(line) == line[a..b]
    ensures forall i | 3 <= i < a :: IsSpace(line[i]) || line[i] == '"'
    ensures forall i | b <= i < |line| :: IsSpace(line[i]) || line[i] == '"'
  {
    var x, y := StripSliceOf(line, 3, |line|, Whitespace);
    assert line[3..] == line[3..|line|];
    a, b := StripSliceOf(line, x, y, Only('"'));
  }

  /** Every character of a path comes from the line after its status
      columns. */
  lemma PathOfChars(line: string)
    requires !Skipped(line)
    ensures forall c | c in PathOf(line) :: c in line[3..]
  {
    var t := Strip(line[3..], Whitespace);
    assert forall c | c in PathOf(line) :: c in t;
  }

  /** A path read from a line holds no line break the line does not. */
  lemma PathOfNoLineBreak(line: string)
    ensures !Skipped(line) && NoLineBreak(line) ==> NoLineBreak(PathOf(line))
  {
    if !Skipped(line) && NoLineBreak(line) {
      var path := PathOf(line);
      PathOfChars(line);
      forall i | 0 <= i < |path| ensures !IsLineBreak(path[i]) {
        assert path[i] in path;
        var j :| 3 <= j < |line| && line[j] == path[i];
      }
    }
  }

  /** Stripping the whole output before splitting it also strips the
      leading blank status column of the first line: for output
      `" M " + p` (a file modified in the work tree only) the hooks see
      the line `"M " + p`, and its path loses the first character of `p`. */
  lemma LeadingBlankStatusShiftsPath(p: string)
    requires |p| >= 2 && NoLineBreak(p)
    requires !IsSpace(p[1]) && p[1] != '"' && !IsSpace(p[|p| - 1]) && p[|p| - 1] != '"'
    ensures StatusLines(" M " + p) == ["M " + p]
    ensures PathOf("M " + p) == p[1..]
  {
    var line := "M " + p;
    StripLeadingBlank(p);
    assert NoLineBreak(line) by {
      forall i | 0 <= i < |line| ensures !IsLineBreak(line[i]) {
        if i >= 2 {
          assert line[i] == p[i - 2];
        }
      }
    }
    SplitLinesOne(line);
    PathAfterColumns(p);
  }

  /** Stripping `" M " + p` removes the blank column only. */
  lemma StripLeadingBlank(p: string)
    requires |p| >= 2 && !IsSpace(p[|p| - 1])
    ensures Strip(" M " + p, Whitespace) == "M " + p
  {
    var line := "M " + p;
    assert " M " + p == [' '] + line;
    assert line[0] == 'M' && line[|line| - 1] == p[|p| - 1];
    StripOneLeading(' ', line, Whitespace);
  }

  /** Output of several lines comes back line by line, when its first
      character and its last are not whitespace: the strip then removes
      nothing, and later lines keep a leading blank status column. */
  lemma StatusLinesJoin(ls: seq<string>)
    requires ls != [] && ls[0] != [] && ls[|ls| - 1] != []
    requires forall l | l in ls :: NoLineBreak(l)
    requires !IsSpace(ls[0][0]) && !IsSpace(ls[|ls| - 1][|ls[|ls| - 1]| - 1])
    ensures StatusLines(Join("\n", ls)) == ls
  {
    JoinEnds("\n", ls);
    StripKeeps(Join("\n", ls), Whitespace);
    SplitLinesJoin(ls);
  }

  /** Two porcelain lines, the second for a file modified in the work tree
      only: both are read, the second with its blank column. */
  lemma TwoStatusLines(a: string, b: string)
    requires NoLineBreak(a) && NoLineBreak(b)
    requires |b| >= 2 && !IsSpace(b[|b| - 1])
    ensures StatusLines(("A  " + a) + "\n" + (" M " + b)) == ["A  " + a, " M " + b]
  {
    var first, second := "A  " + a, " M " + b;
    assert NoLineBreak(first) && NoLineBreak(second) by {
      forall i | 0 <= i < |first| ensures !IsLineBreak(first[i]) {
        if i >= 3 {
          assert first[i] == a[i - 3];
        }
      }
      forall i | 0 <= i < |second| ensures !IsLineBreak(second[i]) {
        if i >= 3 {
          assert second[i] == b[i - 3];
        }
      }
    }
    var ls := [first, second];
    assert ls[1..] == [second];
    assert second[|second| - 1] == b[|b| - 1];
    StatusLinesJoin(ls);
  }

  /** A single line without a break splits to itself. */
  lemma SplitLinesOne(line: string)
    requires line != [] && NoLineBreak(line)
    ensures SplitLines(line) == [line]
  {
    LineLenAll(line);
  }

  /** The path of `"M " + p` is `p` without its first character. */
  lemma PathAfterColumns(p: string)
    requires |p| >= 2
    requires !IsSpace(p[1]) && p[1] != '"' && !IsSpace(p[|p| - 1]) && p[|p| - 1] != '"'
    ensures PathOf("M " + p) == p[1..]
  {
    var line := "M " + p;
    assert line[3..] == p[1..];
    StripKeeps(p[1..], Whitespace);
    StripKeeps(p[1..], Only('"'));
  }

  /** `CODE_EXTENSIONS`: the suffixes that mark a path as code. Both hooks
      that read `git status` carry the same set; its order plays no part. */
  const CodeExtensions: seq<string> := [
    ".ts", ".tsx", ".js", ".jsx", ".mjs", ".cjs",
    ".py", ".pyw",
    ".rs",
    ".go",
    ".java", ".kt", ".kts",
    ".c", ".cpp", ".h", ".hpp",
    ".rb",
    ".swift",
    ".cs",
    ".php",
    ".vue", ".svelte"
  ]

  /** `any(path.endswith(ext) for ext in exts)`, one suffix at a time. */
  predicate EndsWithAny(path: string, exts: seq<string>) {
    exts != [] && (EndsWith(path, exts[0]) || EndsWithAny(path, exts[1..]))
  }

  /** The test is the existence of a matching suffix among `exts`. */
  lemma {:induction false} EndsWithAnyIff(path: string, exts: seq<string>)
    ensures EndsWithAny(path, exts) <==> exists ext | ext in exts :: EndsWith(path, ext)
  {
    if exts != [] {
      EndsWithAnyIff(path, exts[1..]);
      assert forall ext | ext in exts :: ext == exts[0] || ext in exts[1..];
    }
  }

  /** `any(filepath.endswith(ext) for ext in CODE_EXTENSIONS)` */
  predicate IsCodePath(path: string) {
    EndsWithAny(path, CodeExtensions)
  }

  /** A status line the hooks count: long enough, with a code path. */
  predicate IsCodeLine(line: string) {
    !Skipped(line) && IsCodePath(PathOf(line))
  }

  /** The last character of a path decides against a suffix ending in
      another character. */
  lemma EndsWithLast(path: string, ext: string)
    requires ext != [] && EndsWith(path, ext)
    ensures path[|path| - 1] == ext[|ext| - 1]
  {
    assert path[|path| - |ext|..][|ext| - 1] == ext[|ext| - 1];
  }

  /** No code extension ends in `d` or `n`. */
  lemma ExtensionEndings(ext: string)
    requires ext in CodeExtensions
    ensures ext != [] && ext[|ext| - 1] != 'd' && ext[|ext| - 1] != 'n'
  {
  }

  /** A code path never ends in `d` or `n`. */
  lemma CodePathEnding(path: string)
    requires IsCodePath(path)
    ensures path != [] && path[|path| - 1] != 'd' && path[|path| - 1] != 'n'
  {
    EndsWithAnyIff(path, CodeExtensions);
    var ext :| ext in CodeExtensions && EndsWith(path, ext);
    ExtensionEndings(ext);
    EndsWithLast(path, ext);
  }

  /** So documentation (`.md`) and configuration (`.json`) files never
      count as code. */
  lemma DocsAndConfigAreNotCode(path: string)
    ensures EndsWith(path, ".md") ==> !IsCodePath(path)
    ensures EndsWith(path, ".json") ==> !IsCodePath(path)
  {
    if IsCodePath(path) {
      CodePathEnding(path);
      if EndsWith(path, ".md") {
        EndsWithLast(path, ".md");
      }
      if EndsWith(path, ".json") {
        EndsWithLast(path, ".json");
      }
    }
  }
}
