/**
 * The dependency guard: a shell command that adds a new package (as opposed
 * to installing from a lockfile) makes the host ask the user first. Six
 * fixed regular expressions are searched for; each is modelled here as a
 * scanner over the command text.
 *
 * Every pattern has the shape `\b TOOL \s+ SUBCOMMAND \s+ ARGUMENT-TEST`.
 * Backtracking never changes the outcome: a shorter `\s+` run would leave a
 * whitespace character where a subcommand letter or an argument character
 * is required, so only the longest run (`SkipSpaces`) can succeed; and of
 * the alternatives for a tool or a subcommand (`pip3`/`pip`,
 * `install`/`i`/`add`) at most one is followed by whitespace at a given
 * position (`KeywordEndUnique`), so trying them in order finds the only
 * candidate.
 */
module PreInstall {
  import opened Wrappers
  import opened Text
  import opened Protocol

  /** The test on the first character after the subcommand's whitespace. */
  datatype ArgRule =
    | NotFlag     // `(?!-)[^\s]`
    | PipPackage  // `(?!-r\b)(?!--requirement\b)(?!-e\b)(?!--editable\b)(?!\.)[^\s-]`

  datatype AddPattern = AddPattern(tools: seq<string>, subcommands: seq<string>, arg: ArgRule)

  /** The six entries of `ADD_PATTERNS`, in order. */
  const AddPatterns: seq<AddPattern> := [
    AddPattern(["npm"], ["install", "i", "add"], NotFlag),
    AddPattern(["pnpm"], ["add"], NotFlag),
    AddPattern(["yarn"], ["add"], NotFlag),
    AddPattern(["bun"], ["add"], NotFlag),
    AddPattern(["pip3", "pip"], ["install"], PipPackage),
    AddPattern(["cargo"], ["add"], NotFlag)
  ]

  /** The test on the first argument character. For the pip pattern this
      is the character class `[^\s-]` plus the lookahead `(?!\.)`; its
      other lookaheads are implied (`PipLookaheadsRedundant`). */
  predicate ArgOk(rule: ArgRule, s: string, a: nat) {
    a < |s| && !IsSpace(s[a]) && s[a] != '-' && (rule == PipPackage ==> s[a] != '.')
  }

  /** `w` occurs at index `a`, compared character by character. */
  predicate LiteralAt(s: string, a: nat, w: string)
    decreases w
  {
    w == [] || (a < |s| && s[a] == w[0] && LiteralAt(s, a + 1, w[1..]))
  }

  /** The lookahead `(?!w\b)` at index `a`. */
  predicate NotWordAt(s: string, a: nat, w: string) {
    !(LiteralAt(s, a, w) && a + |w| <= |s| && WordBoundary(s, a + |w|))
  }

  /** The pip argument test exactly as written:
      `(?!-r\b)(?!--requirement\b)(?!-e\b)(?!--editable\b)(?!\.)[^\s-]`. */
  predicate PipArgAsWritten(s: string, a: nat) {
    && NotWordAt(s, a, "-r") && NotWordAt(s, a, "--requirement")
    && NotWordAt(s, a, "-e") && NotWordAt(s, a, "--editable")
    && !LiteralAt(s, a, ".")
    && a < |s| && !IsSpace(s[a]) && s[a] != '-'
  }

  /** The lookaheads for `-r`, `--requirement`, `-e` and `--editable` can
      never reject what `[^\s-]` accepts, so the pip test is exactly
      "not whitespace, `-` or `.`". */
  lemma PipLookaheadsRedundant(s: string, a: nat)
    ensures PipArgAsWritten(s, a) <==> ArgOk(PipPackage, s, a)
  {
    if a < |s| && s[a] != '-' {
      assert !LiteralAt(s, a, "-r") && !LiteralAt(s, a, "--requirement");
      assert !LiteralAt(s, a, "-e") && !LiteralAt(s, a, "--editable");
      assert LiteralAt(s, a, ".") <==> s[a] == '.';
    }
  }

  /** The pattern matches starting at index `i`. */
  predicate MatchAt(p: AddPattern, s: string, i: nat)
    requires i <= |s|
  {
    WordBoundary(s, i) &&
    match KeywordEnd(p.tools, s, i)
    case None => false
    case Some(e) =>
      match KeywordEnd(p.subcommands, s, SkipSpaces(s, e))
      case None => false
      case Some(e') => ArgOk(p.arg, s, SkipSpaces(s, e'))
  }

  /** `re.search(pattern, s)` succeeds. */
  predicate Search(p: AddPattern, s: string) {
    exists i | 0 <= i <= |s| :: MatchAt(p, s, i)
  }

  /** `is_adding_dependency`: some pattern is found. */
  predicate IsAddingDependency(command: string) {
    exists p | p in AddPatterns :: Search(p, command)
  }

  const AddReason :=
    "This command adds a new dependency to the project.\n"
    + "Verify the package is intended before proceeding."

  /** The hook's decision: ask when a dependency is added, otherwise allow;
      it never blocks. */
  function InstallDecision(event: Event): (d: Decision)
    ensures !d.Block?
    ensures d.Ask? <==> IsAddingDependency(event.command)
    ensures d.Ask? ==> d.reason == AddReason
    ensures Render(d).exitCode == 0
    ensures Render(d).stdout.Some? <==> IsAddingDependency(event.command)
  {
    if IsAddingDependency(event.command) then Ask(AddReason) else Allow
  }

  // ---------------------------------------------------------------------
  // Properties of the scanners

  /** Tool names and subcommands are nonempty and free of whitespace. */
  predicate WellFormed(p: AddPattern) {
    && (forall w | w in p.tools :: w != [] && NoSpace(w))
    && (forall w | w in p.subcommands :: w != [] && NoSpace(w))
  }

  lemma AddPatternsWellFormed(p: AddPattern)
    requires p in AddPatterns
    ensures WellFormed(p)
  {
    forall w | w in p.tools || w in p.subcommands ensures w != [] && NoSpace(w) {
      PatternWordsAreWords(p, w);
    }
  }

  /** Every tool name and subcommand is a run of ASCII letters and digits. */
  lemma PatternWordsAreWords(p: AddPattern, w: string)
    requires p in AddPatterns && (w in p.tools || w in p.subcommands)
    ensures w != [] && forall n | 0 <= n < |w| :: IsWordChar(w[n]) && !IsSpace(w[n])
  {
    assert LowerAlnum(w);
    LowerAlnumWord(w);
  }

  /** Lower-case ASCII letters and digits only. */
  predicate LowerAlnum(w: string) {
    w != [] && forall n | 0 <= n < |w| :: 'a' <= w[n] <= 'z' || '0' <= w[n] <= '9'
  }

  lemma LowerAlnumWord(w: string)
    requires LowerAlnum(w)
    ensures w != [] && forall n | 0 <= n < |w| :: IsWordChar(w[n]) && !IsSpace(w[n])
  {
  }

  /** The argument test looks at one character only. */
  lemma ArgOkLocal(rule: ArgRule, s: string, a: nat, u: string, b: nat)
    requires a < |s| && b < |u| && u[b] == s[a]
    ensures ArgOk(rule, s, a) <==> ArgOk(rule, u, b)
  {
  }

  /** A word followed by a space, in the middle of a text. */
  lemma KeywordThenSpaceIn(x: string, w: string, y: string)
    ensures KeywordThenSpace(x + w + " " + y, |x|, w)
  {
    var s := x + w + " " + y;
    assert s[|x|..|x| + |w|] == w;
    assert s[|x| + |w|] == ' ';
  }

  /** Skipping a single space before a non-space character. */
  lemma SkipOneSpace(s: string, j: nat)
    requires j + 1 < |s| && s[j] == ' ' && !IsSpace(s[j + 1])
    ensures SkipSpaces(s, j) == j + 1
  {
  }

  /** The pieces of a match at `i` once the tool `t` and the subcommand
      `c` that matched are known. */
  predicate Parts(rule: ArgRule, s: string, i: nat, t: string, c: string) {
    i <= |s| && WordBoundary(s, i) && KeywordThenSpace(s, i, t)
    && Rest(rule, s, i + |t|, c)
  }

  /** After the tool ends at `j`: whitespace, the subcommand `c`,
      whitespace, and an argument passing the test. */
  predicate Rest(rule: ArgRule, s: string, j: nat, c: string)
    requires j <= |s|
  {
    KeywordThenSpace(s, SkipSpaces(s, j), c)
    && ArgOk(rule, s, SkipSpaces(s, SkipSpaces(s, j) + |c|))
  }

  lemma MatchIntro(p: AddPattern, s: string, i: nat, t: string, c: string)
    requires WellFormed(p) && t in p.tools && c in p.subcommands
    requires Parts(p.arg, s, i, t, c)
    ensures MatchAt(p, s, i)
  {
    KeywordEndUnique(p.tools, s, i, t);
    KeywordEndUnique(p.subcommands, s, SkipSpaces(s, i + |t|), c);
  }

  /** A pattern found anywhere flags the command. */
  lemma Found(p: AddPattern, s: string, i: nat)
    requires p in AddPatterns && i <= |s| && MatchAt(p, s, i)
    ensures IsAddingDependency(s)
  {
  }

  lemma InvocationChars(t: string, c: string, arg: string, s: string)
    requires t != [] && c != [] && arg != []
    requires s == t + " " + c + " " + arg
    ensures s[0] == t[0] && s[|t|] == ' ' && s[|t| + 1] == c[0]
    ensures s[|t| + 1 + |c|] == ' ' && s[|t| + |c| + 2] == arg[0]
  {
  }

  lemma InvocationGaps(t: string, c: string, arg: string, s: string)
    requires t != [] && c != [] && arg != []
    requires !IsSpace(c[0]) && !IsSpace(arg[0])
    requires s == t + " " + c + " " + arg
    ensures SkipSpaces(s, |t|) == |t| + 1
    ensures SkipSpaces(s, |t| + 1 + |c|) == |t| + |c| + 2
  {
    InvocationChars(t, c, arg, s);
    SkipOneSpace(s, |t|);
    SkipOneSpace(s, |t| + 1 + |c|);
  }

  /** The positions in `TOOL SUBCOMMAND ARGUMENT`. */
  lemma InvocationLayout(t: string, c: string, arg: string, s: string)
    requires t != [] && c != [] && arg != []
    requires !IsSpace(c[0]) && !IsSpace(arg[0])
    requires s == t + " " + c + " " + arg
    ensures KeywordThenSpace(s, 0, t) && KeywordThenSpace(s, |t| + 1, c)
    ensures SkipSpaces(s, |t|) == |t| + 1
    ensures SkipSpaces(s, |t| + 1 + |c|) == |t| + |c| + 2
    ensures s[0] == t[0] && s[|t| + |c| + 2] == arg[0]
  {
    KeywordThenSpaceIn(t + " ", c, arg);
    InvocationChars(t, c, arg, s);
    InvocationGaps(t, c, arg, s);
  }

  /** A plain invocation `TOOL SUBCOMMAND ARGUMENT` of a pattern whose
      argument passes its test is flagged. */
  lemma InvocationFlagged(p: AddPattern, t: string, c: string, arg: string)
    requires p in AddPatterns && t in p.tools && c in p.subcommands
    requires ArgOk(p.arg, arg, 0)
    ensures IsAddingDependency(t + " " + c + " " + arg)
  {
    Invocation(p, t, c, arg, t + " " + c + " " + arg);
  }

  lemma Invocation(p: AddPattern, t: string, c: string, arg: string, s: string)
    requires p in AddPatterns && t in p.tools && c in p.subcommands
    requires ArgOk(p.arg, arg, 0)
    requires s == t + " " + c + " " + arg
    ensures IsAddingDependency(s)
  {
    PatternWordsAreWords(p, t);
    PatternWordsAreWords(p, c);
    InvocationLayout(t, c, arg, s);
    ArgOkLocal(p.arg, arg, 0, s, |t| + |c| + 2);
    AddPatternsWellFormed(p);
    MatchIntro(p, s, 0, t, c);
    Found(p, s, 0);
  }

  /** The tool and subcommand of a match. */
  lemma MatchParts(p: AddPattern, s: string, i: nat) returns (t: string, c: string)
    requires i <= |s| && MatchAt(p, s, i)
    ensures t in p.tools && c in p.subcommands && Parts(p.arg, s, i, t, c)
  {
    t := KeywordEndWitness(p.tools, s, i);
    c := KeywordEndWitness(p.subcommands, s, SkipSpaces(s, i + |t|));
  }

  /** `pre + s + post` holds `s` after `pre`, and a `pre` that does not
      end in a word character leaves no word character before `s`. */
  lemma Surrounding(pre: string, s: string, post: string)
    requires pre == [] || !IsWordChar(pre[|pre| - 1])
    ensures HoldsAt(pre + s + post, |pre|, s)
    ensures |pre| == 0 || !IsWordChar((pre + s + post)[|pre| - 1])
  {
    HoldsAtMiddle(pre, s, post);
  }

  /** A match survives any text around it, as long as the text before it
      does not end in a word character. */
  lemma MatchIn(p: AddPattern, u: string, off: nat, s: string, i: nat)
    requires HoldsAt(u, off, s)
    requires WellFormed(p) && i <= |s| && MatchAt(p, s, i)
    requires i > 0 || off == 0 || !IsWordChar(u[off - 1])
    ensures MatchAt(p, u, off + i)
  {
    var t, c := MatchParts(p, s, i);
    PartsInContext(p, u, off, s, i, t, c);
  }

  lemma PartsInContext(p: AddPattern, u: string, off: nat, s: string, i: nat, t: string, c: string)
    requires HoldsAt(u, off, s)
    requires WellFormed(p) && t in p.tools && c in p.subcommands
    requires i > 0 || off == 0 || !IsWordChar(u[off - 1])
    requires Parts(p.arg, s, i, t, c)
    ensures MatchAt(p, u, off + i)
  {
    ShiftParts(p.arg, u, off, s, i, t, c);
    MatchIntro(p, u, off + i, t, c);
  }

  lemma ShiftParts(rule: ArgRule, u: string, off: nat, s: string, i: nat, t: string, c: string)
    requires HoldsAt(u, off, s)
    requires i > 0 || off == 0 || !IsWordChar(u[off - 1])
    requires Parts(rule, s, i, t, c)
    ensures Parts(rule, u, off + i, t, c)
  {
    var j := i + |t|;
    assert j < |s|;
    BoundaryInContext(u, off, s, i);
    KeywordInContext(u, off, s, i, t);
    ShiftRest(rule, u, off, s, j, c);
    assert off + j == (off + i) + |t|;
  }

  lemma ShiftRest(rule: ArgRule, u: string, off: nat, s: string, j: nat, c: string)
    requires HoldsAt(u, off, s) && j < |s| && Rest(rule, s, j, c)
    ensures off + j <= |u| && Rest(rule, u, off + j, c)
  {
    SkipSpacesShift(u, off, s, j);
    TailInContext(rule, u, off, s, SkipSpaces(s, j), c);
  }

  /** The subcommand and the argument test, moved into the surrounding
      text. */
  lemma TailInContext(rule: ArgRule, u: string, off: nat, s: string, k: nat, c: string)
    requires HoldsAt(u, off, s)
    requires KeywordThenSpace(s, k, c) && ArgOk(rule, s, SkipSpaces(s, k + |c|))
    ensures KeywordThenSpace(u, off + k, c) && ArgOk(rule, u, SkipSpaces(u, off + k + |c|))
  {
    KeywordInContext(u, off, s, k, c);
    ArgInContext(rule, u, off, s, k + |c|);
  }

  /** The argument test after the subcommand, moved into the surrounding
      text. */
  lemma ArgInContext(rule: ArgRule, u: string, off: nat, s: string, j: nat)
    requires HoldsAt(u, off, s) && j <= |s|
    requires ArgOk(rule, s, SkipSpaces(s, j))
    ensures ArgOk(rule, u, SkipSpaces(u, off + j))
  {
    var a := SkipSpaces(s, j);
    SkipSpacesShift(u, off, s, j);
    HoldsAtChar(u, off, s, a);
  }

  /** The `\b` before a tool name survives the surrounding text. */
  lemma BoundaryInContext(u: string, off: nat, s: string, i: nat)
    requires HoldsAt(u, off, s) && i < |s| && WordBoundary(s, i)
    requires i > 0 || off == 0 || !IsWordChar(u[off - 1])
    ensures WordBoundary(u, off + i)
  {
    HoldsAtChar(u, off, s, i);
    if i > 0 {
      HoldsAtChar(u, off, s, i - 1);
    }
  }

  lemma KeywordInContext(u: string, off: nat, s: string, i: nat, w: string)
    requires HoldsAt(u, off, s) && KeywordThenSpace(s, i, w)
    ensures KeywordThenSpace(u, off + i, w)
  {
    HoldsAtSlice(u, off, s, i, i + |w|);
    HoldsAtChar(u, off, s, i + |w|);
  }

  /** Hence a command that adds a dependency is still flagged inside a
      longer command line, e.g. after `cd app && `. */
  lemma FlaggedInContext(pre: string, s: string, post: string)
    requires IsAddingDependency(s)
    requires pre == [] || !IsWordChar(pre[|pre| - 1])
    ensures IsAddingDependency(pre + s + post)
  {
    var p :| p in AddPatterns && Search(p, s);
    AddPatternsWellFormed(p);
    SearchInContext(p, pre, s, post);
  }

  /** One pattern found in `s` is found in `pre + s + post`. */
  lemma SearchInContext(p: AddPattern, pre: string, s: string, post: string)
    requires WellFormed(p) && Search(p, s)
    requires pre == [] || !IsWordChar(pre[|pre| - 1])
    ensures Search(p, pre + s + post)
  {
    Surrounding(pre, s, post);
    SearchIn(p, pre + s + post, |pre|, s);
  }

  /** The same with the surrounding text given as a whole. */
  lemma SearchIn(p: AddPattern, u: string, off: nat, s: string)
    requires WellFormed(p) && Search(p, s) && HoldsAt(u, off, s)
    requires off == 0 || !IsWordChar(u[off - 1])
    ensures Search(p, u)
  {
    var i :| 0 <= i <= |s| && MatchAt(p, s, i);
    MatchIn(p, u, off, s, i);
  }

  /** At `TOOL SUBCOMMAND` followed by whitespace and a flag, no pattern
      matches: the first argument decides. So `npm install --save-dev x`
      and `pip install -r requirements.txt` are not flagged there, and the
      pip pattern likewise refuses `pip install .`. */
  lemma FlagArgumentRejected(p: AddPattern, s: string, i: nat, t: string, c: string)
    requires WellFormed(p) && i <= |s|
    requires NoSpace(t) && NoSpace(c)
    requires KeywordThenSpace(s, i, t)
    requires KeywordThenSpace(s, SkipSpaces(s, i + |t|), c)
    requires var a := SkipSpaces(s, SkipSpaces(s, i + |t|) + |c|);
      a < |s| && (s[a] == '-' || (p.arg == PipPackage && s[a] == '.'))
    ensures !MatchAt(p, s, i)
  {
    if MatchAt(p, s, i) {
      var t', c' := MatchParts(p, s, i);
      SameGap(s, i, t, t');
      SameGap(s, SkipSpaces(s, i + |t|), c, c');
    }
  }

  /** In `t + " " + c` with whitespace-free words, the only whitespace is
      the separator. */
  lemma OnlySpace(t: string, c: string, s: string)
    requires NoSpace(t) && NoSpace(c) && s == t + " " + c
    ensures forall j :: 0 <= j < |s| && IsSpace(s[j]) ==> j == |t|
  {
    forall j | 0 <= j < |s| && j != |t| ensures !IsSpace(s[j]) {
      if j < |t| {
        assert s[j] == t[j];
      } else {
        assert s[j] == c[j - |t| - 1];
      }
    }
  }

  /** A bare `TOOL SUBCOMMAND`, with no argument, is never flagged: a match
      needs whitespace after both the tool and the subcommand. This covers
      `npm install`, `yarn install` and `pip install`. */
  lemma BareInvocationNotFlagged(t: string, c: string)
    requires NoSpace(t) && NoSpace(c)
    ensures !IsAddingDependency(t + " " + c)
  {
    var s := t + " " + c;
    forall p, i | p in AddPatterns && 0 <= i <= |s| ensures !MatchAt(p, s, i) {
      NoMatchInBare(p, t, c, s, i);
    }
  }

  lemma NoMatchInBare(p: AddPattern, t: string, c: string, s: string, i: nat)
    requires NoSpace(t) && NoSpace(c) && s == t + " " + c && i <= |s|
    ensures !MatchAt(p, s, i)
  {
    OnlySpace(t, c, s);
    if MatchAt(p, s, i) {
      var t', c' := MatchParts(p, s, i);
    }
  }

  /** In `t + " " + c + " " + a` with whitespace-free words, the only
      whitespace is the two separators. */
  lemma TwoSpaces(t: string, c: string, a: string, s: string)
    requires NoSpace(t) && NoSpace(c) && NoSpace(a) && c != [] && a != []
    requires s == t + " " + c + " " + a
    ensures forall j | 0 <= j < |s| && IsSpace(s[j]) :: j == |t| || j == |t| + 1 + |c|
    ensures s[|t|] == ' ' && s[|t| + 1 + |c|] == ' ' && s[|t| + |c| + 2] == a[0]
    ensures forall n | 0 <= n < |t| :: s[n] == t[n]
    ensures s[|t| + 1..|t| + 1 + |c|] == c
  {
    forall j | 0 <= j < |s| && j != |t| && j != |t| + 1 + |c| ensures !IsSpace(s[j]) {
      if j < |t| {
        assert s[j] == t[j];
      } else if j < |t| + 1 + |c| {
        assert s[j] == c[j - |t| - 1];
      } else {
        assert s[j] == a[j - |t| - |c| - 2];
      }
    }
  }

  /** In a text whose only whitespace is a single space at `x` and another
      at `y`, each followed by a non-space, a match can only be a tool
      ending at `x`, a subcommand filling the gap up to `y`, and the
      argument right after `y`. */
  lemma MatchBetweenTwoSpaces(p: AddPattern, s: string, i: nat, x: nat, y: nat)
    returns (t: string, c: string)
    requires i <= |s| && MatchAt(p, s, i)
    requires x < y && y + 1 < |s| && s[x] == ' ' && s[y] == ' '
    requires forall j | 0 <= j < |s| && IsSpace(s[j]) :: j == x || j == y
    ensures t in p.tools && i + |t| == x && StartsAt(s, i, t)
    ensures c in p.subcommands && c == s[x + 1..y]
    ensures ArgOk(p.arg, s, y + 1)
  {
    t, c := MatchParts(p, s, i);
    SkipOneSpace(s, x);
    SkipOneSpace(s, y);
  }

  /** A command `TOOL SUBCOMMAND -FLAG` of three whitespace-free words is
      never flagged, wherever a match is tried: `npm install --save-dev`,
      `pip install -e` and the like. */
  lemma FlagInvocationNotFlagged(t: string, c: string, a: string)
    requires NoSpace(t) && NoSpace(c) && NoSpace(a) && c != [] && a != [] && a[0] == '-'
    ensures !IsAddingDependency(t + " " + c + " " + a)
  {
    var s := t + " " + c + " " + a;
    TwoSpaces(t, c, a, s);
    forall p, i | p in AddPatterns && 0 <= i <= |s| ensures !MatchAt(p, s, i) {
      if MatchAt(p, s, i) {
        var t', c' := MatchBetweenTwoSpaces(p, s, i, |t|, |t| + 1 + |c|);
      }
    }
  }

  /** The only whitespace in `t + " " + c + " " + f + " " + a`, with
      whitespace-free words, is the three separators. */
  lemma ThreeSpaces(t: string, c: string, f: string, a: string, s: string)
    requires NoSpace(t) && NoSpace(c) && NoSpace(f) && NoSpace(a) && c != [] && f != [] && a != []
    requires s == t + " " + c + " " + f + " " + a
    ensures forall j | 0 <= j < |s| && IsSpace(s[j]) ::
      j == |t| || j == |t| + 1 + |c| || j == |t| + |c| + 2 + |f|
    ensures s[|t|] == ' ' && s[|t| + 1 + |c|] == ' ' && s[|t| + |c| + 2 + |f|] == ' '
    ensures s[|t| + |c| + 2] == f[0] && s[|t| + |c| + |f| + 3] == a[0]
  {
    var x, y, z := |t|, |t| + 1 + |c|, |t| + |c| + 2 + |f|;
    forall j | 0 <= j < |s| && j != x && j != y && j != z ensures !IsSpace(s[j]) {
      if j < x {
        assert s[j] == t[j];
      } else if j < y {
        assert s[j] == c[j - x - 1];
      } else if j < z {
        assert s[j] == f[j - y - 1];
      } else {
        assert s[j] == a[j - z - 1];
      }
    }
  }

  /** In a text whose only whitespace is single spaces at `x`, `y` and
      `z`, with a flag right after `y`, nothing matches: the subcommand
      after a tool ending at `x` is followed by the flag, a subcommand
      cannot start with `-`, and a tool ending at `z` has no subcommand. */
  lemma NoMatchBeforeFlag(p: AddPattern, s: string, i: nat, x: nat, y: nat, z: nat)
    requires p in AddPatterns && i <= |s|
    requires x < y < z && z + 1 < |s| && s[x] == ' ' && s[y] == ' ' && s[z] == ' '
    requires s[y + 1] == '-'
    requires forall j | 0 <= j < |s| && IsSpace(s[j]) :: j == x || j == y || j == z
    ensures !MatchAt(p, s, i)
  {
    if MatchAt(p, s, i) {
      var e, d := MatchShape(p, s, i);
      SkipOneSpace(s, x);
      SkipOneSpace(s, y);
      SkipOneSpace(s, z);
    }
  }

  /** Where a match puts its whitespace: the tool ends at `e`, the
      subcommand, all word characters, runs from the end of that
      whitespace to `d`, and the argument test holds after the whitespace
      at `d`. */
  lemma MatchShape(p: AddPattern, s: string, i: nat) returns (e: nat, d: nat)
    requires p in AddPatterns && i <= |s| && MatchAt(p, s, i)
    ensures i < e < d < |s| && IsSpace(s[e]) && IsSpace(s[d])
    ensures SkipSpaces(s, e) < d && forall n | SkipSpaces(s, e) <= n < d :: IsWordChar(s[n])
    ensures ArgOk(p.arg, s, SkipSpaces(s, d))
  {
    var t, c := MatchParts(p, s, i);
    PatternWordsAreWords(p, t);
    PatternWordsAreWords(p, c);
    e, d := PartsShape(p.arg, s, i, t, c);
  }

  lemma PartsShape(rule: ArgRule, s: string, i: nat, t: string, c: string) returns (e: nat, d: nat)
    requires Parts(rule, s, i, t, c) && t != [] && c != []
    requires forall n | 0 <= n < |c| :: IsWordChar(c[n])
    ensures i < e < d < |s| && IsSpace(s[e]) && IsSpace(s[d])
    ensures SkipSpaces(s, e) < d && forall n | SkipSpaces(s, e) <= n < d :: IsWordChar(s[n])
    ensures ArgOk(rule, s, SkipSpaces(s, d))
  {
    e := i + |t|;
    var k := SkipSpaces(s, e);
    d := k + |c|;
    forall n | k <= n < d ensures IsWordChar(s[n]) {
      StartsAtChar(s, k, c, n - k);
    }
  }

  /** `TOOL SUBCOMMAND -FLAG VALUE` of four whitespace-free words is never
      flagged, wherever a match is tried. */
  lemma FlagThenValueNotFlagged(t: string, c: string, f: string, a: string)
    requires NoSpace(t) && NoSpace(c) && NoSpace(f) && NoSpace(a)
    requires c != [] && f != [] && a != [] && f[0] == '-'
    ensures !IsAddingDependency(t + " " + c + " " + f + " " + a)
  {
    var s := t + " " + c + " " + f + " " + a;
    ThreeSpaces(t, c, f, a, s);
    forall p, i | p in AddPatterns && 0 <= i <= |s| ensures !MatchAt(p, s, i) {
      NoMatchBeforeFlag(p, s, i, |t|, |t| + 1 + |c|, |t| + |c| + 2 + |f|);
    }
  }

  /** `pip install -r requirements.txt` is not a dependency addition. */
  lemma RequirementsFileNotFlagged()
    ensures !IsAddingDependency("pip" + " " + "install" + " " + "-r" + " " + "requirements.txt")
  {
    FlagThenValueNotFlagged("pip", "install", "-r", "requirements.txt");
  }

  /** A command of three whitespace-free words whose first word is made of
      word characters and is not itself a tool name is never flagged: a
      tool glued to a prefix, as in `xnpm install lodash`, does not count. */
  lemma GluedToolNotFlagged(t: string, c: string, a: string)
    requires forall n | 0 <= n < |t| :: IsWordChar(t[n])
    requires forall p | p in AddPatterns :: t !in p.tools
    requires NoSpace(c) && NoSpace(a) && c != [] && a != []
    ensures !IsAddingDependency(t + " " + c + " " + a)
  {
    var s := t + " " + c + " " + a;
    TwoSpaces(t, c, a, s);
    forall p, i | p in AddPatterns && 0 <= i <= |s| ensures !MatchAt(p, s, i) {
      NoFirstWordMatch(p, s, i, t, c, |t| + 1 + |c|);
    }
  }

  /** A three-word command whose first word, all word characters, is a
      tool name only of patterns that do not accept its second word as a
      subcommand is never flagged: `yarn install lodash` is not. */
  lemma ForeignSubcommandNotFlagged(t: string, c: string, a: string)
    requires forall n | 0 <= n < |t| :: IsWordChar(t[n])
    requires forall p | p in AddPatterns && t in p.tools :: c !in p.subcommands
    requires NoSpace(c) && NoSpace(a) && c != [] && a != []
    ensures !IsAddingDependency(t + " " + c + " " + a)
  {
    var s := t + " " + c + " " + a;
    TwoSpaces(t, c, a, s);
    forall p, i | p in AddPatterns && 0 <= i <= |s| ensures !MatchAt(p, s, i) {
      NoFirstWordMatch(p, s, i, t, c, |t| + 1 + |c|);
    }
  }

  /** `yarn install lodash` is not a dependency addition: only npm and pip
      accept `install`. */
  lemma YarnInstallNotFlagged()
    ensures !IsAddingDependency("yarn" + " " + "install" + " " + "lodash")
  {
    var t := "yarn";
    assert LowerAlnum(t);
    LowerAlnumWord(t);
    ForeignSubcommandNotFlagged(t, "install", "lodash");
  }

  /** In a text whose only whitespace is a space after the first word `t`,
      all word characters, and another at `y`, only a pattern with `t`
      itself as a tool and the second word `c` as a subcommand can match. */
  lemma NoFirstWordMatch(p: AddPattern, s: string, i: nat, t: string, c: string, y: nat)
    requires p in AddPatterns && i <= |s|
    requires |t| < y && y + 1 < |s| && s[|t|] == ' ' && s[y] == ' '
    requires forall j | 0 <= j < |s| && IsSpace(s[j]) :: j == |t| || j == y
    requires forall n | 0 <= n < |t| :: s[n] == t[n] && IsWordChar(t[n])
    requires c == s[|t| + 1..y] && !(t in p.tools && c in p.subcommands)
    ensures !MatchAt(p, s, i)
  {
    if MatchAt(p, s, i) {
      var t', c' := MatchBetweenTwoSpaces(p, s, i, |t|, y);
      PatternWordsAreWords(p, t');
      GluedStart(s, t, i, t');
    }
  }

  /** A word starting at a word boundary and ending where the first word
      `t` of `s`, all word characters, ends, is `t` itself. */
  lemma GluedStart(s: string, t: string, i: nat, t': string)
    requires |t| <= |s| && forall n | 0 <= n < |t| :: s[n] == t[n] && IsWordChar(t[n])
    requires t' != [] && i + |t'| == |t| && StartsAt(s, i, t') && WordBoundary(s, i)
    ensures t' == t
  {
    if i > 0 {
      assert false;
    }
    StartsAtChar(s, 0, t', 0);
    forall n | 0 <= n < |t| ensures t'[n] == t[n] {
      StartsAtChar(s, 0, t', n);
    }
  }

  /** `xnpm install lodash` is not a dependency addition. */
  lemma PrefixedNpmNotFlagged()
    ensures !IsAddingDependency("xnpm" + " " + "install" + " " + "lodash")
  {
    var t := "xnpm";
    assert LowerAlnum(t);
    LowerAlnumWord(t);
    NotATool(t);
    GluedToolNotFlagged(t, "install", "lodash");
  }

  /** No tool name starts with `x`. */
  lemma NotATool(t: string)
    requires t != [] && t[0] == 'x'
    ensures forall p | p in AddPatterns :: t !in p.tools
  {
    forall p | p in AddPatterns ensures t !in p.tools {
      ToolsStartWith(p);
    }
  }

  /** The first letters of the tool names. */
  lemma ToolsStartWith(p: AddPattern)
    requires p in AddPatterns
    ensures forall w | w in p.tools :: w != [] && w[0] in "npybc"
  {
  }

  /** The pnpm, yarn, bun and cargo patterns accept `add` only: after the
      tool, a subcommand starting with `i` (as in `yarn install lodash` or
      `pnpm install lodash`) never matches there, whatever follows. */
  lemma InstallIsNotAdd(p: AddPattern, s: string, i: nat, t: string)
    requires WellFormed(p) && p.subcommands == ["add"] && t in p.tools && i <= |s|
    requires KeywordThenSpace(s, i, t)
    requires var k := SkipSpaces(s, i + |t|); k < |s| && s[k] == 'i'
    ensures !MatchAt(p, s, i)
  {
    if MatchAt(p, s, i) {
      var t', c' := MatchParts(p, s, i);
      SameGap(s, i, t, t');
      var k := SkipSpaces(s, i + |t|);
      assert c' == "add" && StartsAt(s, k, c');
      StartsAtChar(s, k, c', 0);
    }
  }

  /** A tool name inside a longer word, as in `xnpm install foo`, does not
      start a match. */
  lemma ToolMustStartAWord(p: AddPattern, s: string, i: nat)
    requires 0 < i < |s| && IsWordChar(s[i - 1]) && IsWordChar(s[i])
    ensures !MatchAt(p, s, i)
  {
  }
}
