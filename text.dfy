/**
 * The behaviour of Python's `str` that the hooks rely on: whitespace,
 * `split()`, `strip()`, `splitlines()`, `startswith`/`endswith`,
 * `sep.join(...)`, and the decimal rendering of integers in f-strings.
 */
module Text {
  import opened Wrappers

  /** Python's `str.isspace()`: the characters that `split()`, `strip()` and
      the regular-expression class `\s` treat as whitespace. */
  predicate IsSpace(c: char) {
    || c == ' ' || '\t' <= c <= '\r' || '\U{1c}' <= c <= '\U{1f}'
    || c == '\U{85}' || c == '\U{a0}' || c == '\U{1680}'
    || '\U{2000}' <= c <= '\U{200a}' || c == '\U{2028}' || c == '\U{2029}'
    || c == '\U{202f}' || c == '\U{205f}' || c == '\U{3000}'
  }

  /** The regular-expression class `\w`, restricted to ASCII. */
  predicate IsWordChar(c: char) {
    'a' <= c <= 'z' || 'A' <= c <= 'Z' || '0' <= c <= '9' || c == '_'
  }

  /** The characters at which `str.splitlines()` ends a line. */
  predicate IsLineBreak(c: char) {
    || c == '\n' || c == '\r' || c == '\U{0b}' || c == '\U{0c}'
    || '\U{1c}' <= c <= '\U{1e}' || c == '\U{85}' || c == '\U{2028}' || c == '\U{2029}'
  }

  predicate NoSpace(w: string) {
    forall i :: 0 <= i < |w| ==> !IsSpace(w[i])
  }

  predicate NoLineBreak(w: string) {
    forall i :: 0 <= i < |w| ==> !IsLineBreak(w[i])
  }

  /** `s.startswith(t)` */
  predicate StartsWith(s: string, t: string) {
    |t| <= |s| && s[..|t|] == t
  }

  /** A one-character prefix is a test of the first character. */
  lemma StartsWithChar(s: string, c: char)
    ensures StartsWith(s, [c]) <==> s != [] && s[0] == c
  {
    if s != [] && s[..1] == [c] {
      assert s[..1][0] == s[0];
    }
  }

  /** `s.endswith(t)` */
  predicate EndsWith(s: string, t: string) {
    |t| <= |s| && s[|s| - |t|..] == t
  }

  /** `t in s` for strings: `t` occurs in `s` as a contiguous slice. */
  predicate Contains(s: string, t: string) {
    exists i | 0 <= i <= |s| - |t| :: StartsAt(s, i, t)
  }

  /** `t` occurs in `s` at index `i`. */
  predicate StartsAt(s: string, i: nat, t: string) {
    i + |t| <= |s| && s[i..i + |t|] == t
  }

  /** A text built around `t` contains `t`. */
  lemma ContainsMiddle(a: string, t: string, b: string)
    ensures Contains(a + t + b, t)
  {
    assert (a + t + b)[|a|..|a| + |t|] == t;
    assert StartsAt(a + t + b, |a|, t);
  }

  // ---------------------------------------------------------------------
  // str.split()

  /** Length of the leading run of non-whitespace characters of `s`. */
  function WordLen(s: string): (n: nat)
    ensures n <= |s| && NoSpace(s[..n])
    ensures n < |s| ==> IsSpace(s[n])
    ensures s != [] && !IsSpace(s[0]) ==> n >= 1
  {
    if s == [] || IsSpace(s[0]) then 0 else 1 + WordLen(s[1..])
  }

  /** Python's `s.split()`: the maximal runs of non-whitespace characters of
      `s`, left to right. */
  function Split(s: string): (words: seq<string>)
    ensures forall w | w in words :: w != [] && NoSpace(w)
    decreases |s|
  {
    if s == [] then []
    else if IsSpace(s[0]) then Split(s[1..])
    else
      var n := WordLen(s);
      [s[..n]] + Split(s[n..])
  }

  /** Python's `sep.join(xs)`. */
  function Join(sep: string, xs: seq<string>): (r: string)
    ensures |xs| == 1 ==> r == xs[0]
  {
    if xs == [] then ""
    else if |xs| == 1 then xs[0]
    else xs[0] + sep + Join(sep, xs[1..])
  }

  lemma {:induction false} WordLenOfWord(w: string, rest: string)
    requires NoSpace(w)
    requires rest == [] || IsSpace(rest[0])
    ensures WordLen(w + rest) == |w|
    decreases |w|
  {
    if w != [] {
      assert (w + rest)[1..] == w[1..] + rest;
      WordLenOfWord(w[1..], rest);
    }
  }

  /** A word followed by whitespace (or nothing) splits off as one token. */
  lemma SplitWordThen(w: string, rest: string)
    requires w != [] && NoSpace(w)
    requires rest == [] || IsSpace(rest[0])
    ensures Split(w + rest) == [w] + Split(rest)
  {
    WordLenOfWord(w, rest);
    assert (w + rest)[..|w|] == w;
    assert (w + rest)[|w|..] == rest;
  }

  /** Splitting words joined by single spaces gives the words back. */
  lemma {:induction false} SplitJoinSpace(ws: seq<string>)
    requires forall w | w in ws :: w != [] && NoSpace(w)
    ensures Split(Join(" ", ws)) == ws
  {
    if |ws| == 1 {
      assert ws[0] in ws;
      SplitWordThen(ws[0], "");
      assert ws[0] + "" == ws[0];
    } else if |ws| > 1 {
      assert ws[0] in ws;
      assert forall w | w in ws[1..] :: w in ws;
      SplitJoinStep(ws[0], Join(" ", ws[1..]));
      SplitJoinSpace(ws[1..]);
      assert ws == [ws[0]] + ws[1..];
    }
  }

  /** One step of `SplitJoinSpace`: a word, a space, and the rest. */
  lemma SplitJoinStep(w: string, rest: string)
    requires w != [] && NoSpace(w)
    ensures Split(w + " " + rest) == [w] + Split(rest)
  {
    assert w + " " + rest == w + (" " + rest);
    SplitWordThen(w, " " + rest);
    assert (" " + rest)[1..] == rest;
  }

  lemma SplitWords(command: string, words: seq<string>)
    requires forall w | w in words :: w != [] && NoSpace(w)
    requires command == Join(" ", words)
    ensures Split(command) == words
  {
    SplitJoinSpace(words);
  }

  // ---------------------------------------------------------------------
  // str.strip() and str.strip(chars)

  /** What a `strip` call removes: whitespace (`strip()`) or one given
      character (`strip('"')`). */
  datatype StripSet = Whitespace | Only(ch: char)

  predicate Strips(k: StripSet, c: char) {
    match k
    case Whitespace => IsSpace(c)
    case Only(ch) => c == ch
  }

  function TrimLeft(s: string, k: StripSet): (r: string)
    ensures |r| <= |s| && r == s[|s| - |r|..]
    ensures r == [] || !Strips(k, r[0])
    ensures forall i :: 0 <= i < |s| - |r| ==> Strips(k, s[i])
  {
    if s != [] && Strips(k, s[0]) then TrimLeft(s[1..], k) else s
  }

  function TrimRight(s: string, k: StripSet): (r: string)
    ensures |r| <= |s| && r == s[..|r|]
    ensures r == [] || !Strips(k, r[|r| - 1])
    ensures forall i :: |r| <= i < |s| ==> Strips(k, s[i])
  {
    if s != [] && Strips(k, s[|s| - 1]) then TrimRight(s[..|s| - 1], k) else s
  }

  /** A text made only of stripped characters trims to nothing. */
  lemma {:induction false} TrimLeftAll(s: string, k: StripSet)
    requires forall n | 0 <= n < |s| :: Strips(k, s[n])
    ensures TrimLeft(s, k) == [] && Strip(s, k) == []
  {
    if s != [] {
      assert forall n | 0 <= n < |s[1..]| :: s[1..][n] == s[n + 1];
      TrimLeftAll(s[1..], k);
    }
  }

  /** Python's `s.strip()` (for `Whitespace`) and `s.strip(ch)` (for
      `Only(ch)`): `s` without its leading and trailing run of stripped
      characters. */
  function Strip(s: string, k: StripSet): (r: string)
    ensures |r| <= |s|
    ensures r == [] || (!Strips(k, r[0]) && !Strips(k, r[|r| - 1]))
    ensures forall c | c in r :: c in s
  {
    var t := TrimLeft(s, k);
    var r := TrimRight(t, k);
    assert r == s[|s| - |t|..|s| - |t| + |r|];
    r
  }

  /** `strip` keeps one slice of `s` and drops only stripped characters
      around it; with the kept ends stated by `Strip` itself, this fixes
      the result. */
  lemma StripSlice(s: string, k: StripSet) returns (a: nat)
    ensures a + |Strip(s, k)| <= |s| && Strip(s, k) == s[a..a + |Strip(s, k)|]
    ensures forall i | 0 <= i < a :: Strips(k, s[i])
    ensures forall i | a + |Strip(s, k)| <= i < |s| :: Strips(k, s[i])
  {
    var t := TrimLeft(s, k);
    var r := TrimRight(t, k);
    assert Strip(s, k) == r;
    a := |s| - |t|;
    SliceOfSuffix(s, a, t, |r|);
    forall i | a + |r| <= i < |s| ensures Strips(k, s[i]) {
      assert t[i - a] == s[i];
    }
  }

  /** Stripping a slice of `s` leaves a narrower slice of `s`, with only
      stripped characters cut on either side. */
  lemma StripSliceOf(s: string, lo: nat, hi: nat, k: StripSet) returns (a: nat, b: nat)
    requires lo <= hi <= |s|
    ensures lo <= a <= b <= hi && Strip(s[lo..hi], k) == s[a..b]
    ensures forall i | lo <= i < a :: Strips(k, s[i])
    ensures forall i | b <= i < hi :: Strips(k, s[i])
  {
    var w := s[lo..hi];
    var x := StripSlice(w, k);
    var n := |Strip(w, k)|;
    SliceOfSlice(s, lo, hi, x, x + n);
    a, b := lo + x, lo + x + n;
    StripsOfSlice(s, lo, hi, 0, x, k);
    StripsOfSlice(s, lo, hi, x + n, hi - lo, k);
  }

  /** Characters of a slice of `s` are characters of `s`, shifted. */
  lemma StripsOfSlice(s: string, lo: nat, hi: nat, x: nat, y: nat, k: StripSet)
    requires lo <= hi <= |s| && x <= y <= hi - lo
    requires forall i | x <= i < y :: Strips(k, s[lo..hi][i])
    ensures forall i | lo + x <= i < lo + y :: Strips(k, s[i])
  {
    forall i | lo + x <= i < lo + y ensures Strips(k, s[i]) {
      assert s[lo..hi][i - lo] == s[i];
    }
  }

  /** A slice of a slice is a slice. */
  lemma SliceOfSlice<T>(s: seq<T>, lo: nat, hi: nat, x: nat, y: nat)
    requires lo <= hi <= |s| && x <= y <= hi - lo
    ensures s[lo..hi][x..y] == s[lo + x..lo + y]
  {
    var u, v := s[lo..hi][x..y], s[lo + x..lo + y];
    assert |u| == |v|;
    forall i | 0 <= i < |u| ensures u[i] == v[i] {
      assert u[i] == s[lo..hi][x + i] == s[lo + x + i];
    }
  }

  /** A prefix of a suffix is a slice. */
  lemma SliceOfSuffix<T>(s: seq<T>, a: nat, t: seq<T>, n: nat)
    requires a <= |s| && t == s[a..] && n <= |t|
    ensures t[..n] == s[a..a + n]
  {
  }

  /** Text that starts and ends with a kept character strips to itself. */
  lemma StripKeeps(s: string, k: StripSet)
    requires s != [] && !Strips(k, s[0]) && !Strips(k, s[|s| - 1])
    ensures Strip(s, k) == s
  {
  }

  /** One stripped character before text that starts and ends with a kept
      character is all that `strip` removes. */
  lemma StripOneLeading(c: char, s: string, k: StripSet)
    requires Strips(k, c)
    requires s != [] && !Strips(k, s[0]) && !Strips(k, s[|s| - 1])
    ensures Strip([c] + s, k) == s
  {
    var u := [c] + s;
    assert u[0] == c && u[1..] == s;
    assert TrimLeft(u, k) == TrimLeft(s, k);
    assert TrimLeft(s, k) == s;
    assert TrimRight(s, k) == s;
  }

  // ---------------------------------------------------------------------
  // str.splitlines()

  /** Length of the first line of `s`: the index of its first line break,
      or `|s|`. */
  function LineLen(s: string): (n: nat)
    ensures n <= |s| && NoLineBreak(s[..n])
    ensures n < |s| ==> IsLineBreak(s[n])
  {
    if s == [] || IsLineBreak(s[0]) then 0 else 1 + LineLen(s[1..])
  }

  /** Text without line breaks is one line. */
  lemma {:induction false} LineLenAll(s: string)
    requires NoLineBreak(s)
    ensures LineLen(s) == |s|
  {
    if s != [] {
      assert NoLineBreak(s[1..]) by {
        forall i | 0 <= i < |s[1..]| ensures !IsLineBreak(s[1..][i]) {
          assert s[1..][i] == s[i + 1];
        }
      }
      LineLenAll(s[1..]);
    }
  }

  /** Python's `s.splitlines()`: the lines of `s` without their line breaks,
      where `\r\n` ends one line and a final line break adds no empty line. */
  function SplitLines(s: string): (lines: seq<string>)
    ensures forall l | l in lines :: NoLineBreak(l)
    decreases |s|
  {
    if s == [] then []
    else
      var n := LineLen(s);
      if n == |s| then [s]
      else
        var next := if s[n] == '\r' && n + 1 < |s| && s[n + 1] == '\n' then n + 2 else n + 1;
        [s[..n]] + SplitLines(s[next..])
  }

  /** A line without breaks followed by a break is measured up to the
      break. */
  lemma {:induction false} LineLenBefore(l: string, rest: string)
    requires NoLineBreak(l) && rest != [] && IsLineBreak(rest[0])
    ensures LineLen(l + rest) == |l|
  {
    if l != [] {
      assert (l + rest)[0] == l[0] && (l + rest)[1..] == l[1..] + rest;
      assert NoLineBreak(l[1..]) by {
        forall i | 0 <= i < |l[1..]| ensures !IsLineBreak(l[1..][i]) {
          assert l[1..][i] == l[i + 1];
        }
      }
      LineLenBefore(l[1..], rest);
    }
  }

  /** A line ended by `\n` splits off as one line. */
  lemma SplitLinesStep(l: string, rest: string)
    requires NoLineBreak(l)
    ensures SplitLines(l + "\n" + rest) == [l] + SplitLines(rest)
  {
    var s := l + "\n" + rest;
    assert s == l + ("\n" + rest);
    LineLenBefore(l, "\n" + rest);
    assert s[|l|] == '\n' && s[..|l|] == l && s[|l| + 1..] == rest;
  }

  /** A line ended by `\r\n` splits off as one line: the pair is a single
      break. */
  lemma SplitLinesCrLf(l: string, rest: string)
    requires NoLineBreak(l)
    ensures SplitLines(l + "\r\n" + rest) == [l] + SplitLines(rest)
  {
    var s := l + "\r\n" + rest;
    assert s == l + ("\r\n" + rest);
    LineLenBefore(l, "\r\n" + rest);
    assert s[|l|] == '\r' && s[|l| + 1] == '\n' && s[..|l|] == l && s[|l| + 2..] == rest;
  }

  /** `splitlines` undoes `"\n".join` for lines without breaks whose last
      line is not empty. */
  lemma {:induction false} SplitLinesJoin(ls: seq<string>)
    requires ls != [] && ls[|ls| - 1] != []
    requires forall l | l in ls :: NoLineBreak(l)
    ensures SplitLines(Join("\n", ls)) == ls
  {
    if |ls| == 1 {
      LineLenAll(ls[0]);
    } else {
      assert ls[0] in ls;
      assert forall l | l in ls[1..] :: l in ls;
      SplitLinesJoin(ls[1..]);
      SplitLinesStep(ls[0], Join("\n", ls[1..]));
      assert ls == [ls[0]] + ls[1..];
    }
  }

  /** `sep.join(xs)` starts with the first element's first character and
      ends with the last element's last character. */
  lemma {:induction false} JoinEnds(sep: string, xs: seq<string>)
    requires xs != [] && xs[0] != [] && xs[|xs| - 1] != []
    ensures var r := Join(sep, xs);
      r != [] && r[0] == xs[0][0] && r[|r| - 1] == xs[|xs| - 1][|xs[|xs| - 1]| - 1]
  {
    if |xs| > 1 {
      var rest := xs[1..];
      if |rest| > 1 {
        assert rest[0] == xs[1];
      }
      JoinEndsLast(sep, xs);
    }
  }

  lemma {:induction false} JoinEndsLast(sep: string, xs: seq<string>)
    requires xs != [] && xs[|xs| - 1] != []
    ensures var r := Join(sep, xs);
      r != [] && r[|r| - 1] == xs[|xs| - 1][|xs[|xs| - 1]| - 1]
  {
    if |xs| > 1 {
      JoinEndsLast(sep, xs[1..]);
      assert xs[1..][|xs[1..]| - 1] == xs[|xs| - 1];
    }
  }

  // ---------------------------------------------------------------------
  // str.split(c), the reader of text written with c.join(...)

  /** Index of the first `c` in `s`, or `|s|`. */
  function IndexOf(s: string, c: char): (n: nat)
    ensures n <= |s| && c !in s[..n]
    ensures n < |s| ==> s[n] == c
  {
    if s == [] || s[0] == c then 0 else 1 + IndexOf(s[1..], c)
  }

  /** Python's `s.split(c)` for a one-character separator. */
  function SplitOn(s: string, c: char): (parts: seq<string>)
    ensures |parts| >= 1
    ensures forall p | p in parts :: c !in p
    decreases |s|
  {
    var n := IndexOf(s, c);
    if n == |s| then [s] else [s[..n]] + SplitOn(s[n + 1..], c)
  }

  lemma {:induction false} IndexOfAbsent(x: string, rest: string, c: char)
    requires c !in x
    requires rest == [] || rest[0] == c
    ensures IndexOf(x + rest, c) == |x|
    decreases |x|
  {
    if x != [] {
      assert (x + rest)[1..] == x[1..] + rest;
      IndexOfAbsent(x[1..], rest, c);
    }
  }

  /** A text without `c` splits into itself alone. */
  lemma SplitOnSingle(x: string, c: char)
    requires c !in x
    ensures SplitOn(x, c) == [x]
  {
    IndexOfAbsent(x, "", c);
    assert x + "" == x;
  }

  /** A `c` found in `x` is found first in any extension of `x`. */
  lemma {:induction false} IndexOfPrefix(x: string, rest: string, c: char)
    requires IndexOf(x, c) < |x|
    ensures IndexOf(x + rest, c) == IndexOf(x, c)
    decreases |x|
  {
    if x[0] != c {
      assert (x + rest)[1..] == x[1..] + rest;
      IndexOfPrefix(x[1..], rest, c);
    }
  }

  /** Splitting on `c` turns each `c` into a boundary between parts:
      `(x + c + y).split(c) == x.split(c) + y.split(c)`. */
  lemma {:induction false} SplitOnSep(x: string, y: string, c: char)
    ensures SplitOn(x + [c] + y, c) == SplitOn(x, c) + SplitOn(y, c)
    decreases |x|
  {
    var n := IndexOf(x, c);
    if n == |x| {
      SplitOnSepFirst(x, y, c);
    } else {
      var x' := x[n + 1..];
      SplitOnSep(x', y, c);
      ConcatAssoc(x', [c], y);
      SplitOnSepStep(x, [c] + y, c, SplitOn(y, c));
      ConcatAssoc(x, [c], y);
    }
  }

  /** The step of `SplitOnSep`: a `c` inside `x` ends its first part
      whatever follows `x`. */
  lemma SplitOnSepStep(x: string, t: string, c: char, tail: seq<string>)
    requires IndexOf(x, c) < |x|
    requires SplitOn(x[IndexOf(x, c) + 1..] + t, c) == SplitOn(x[IndexOf(x, c) + 1..], c) + tail
    ensures SplitOn(x + t, c) == SplitOn(x, c) + tail
  {
    var n := IndexOf(x, c);
    var x' := x[n + 1..];
    IndexOfPrefix(x, t, c);
    SplitOnAt(x + t, c);
    SplitOnAt(x, c);
    SliceAfter(x, t, n);
    ConcatAssoc([x[..n]], SplitOn(x', c), tail);
  }

  lemma ConcatAssoc<T>(a: seq<T>, b: seq<T>, c: seq<T>)
    ensures a + b + c == a + (b + c)
  {
  }

  /** Slicing a concatenation inside its first part. */
  lemma SliceAfter(x: string, t: string, n: nat)
    requires n < |x|
    ensures (x + t)[..n] == x[..n] && (x + t)[n + 1..] == x[n + 1..] + t
  {
  }

  /** The first part ends at the first `c`. */
  lemma SplitOnAt(s: string, c: char)
    requires IndexOf(s, c) < |s|
    ensures SplitOn(s, c) == [s[..IndexOf(s, c)]] + SplitOn(s[IndexOf(s, c) + 1..], c)
  {
  }

  /** One more line after `x`. */
  lemma SplitOnAppend(x: string, line: string, c: char)
    requires c !in line
    ensures SplitOn(x + [c] + line, c) == SplitOn(x, c) + [line]
  {
    SplitOnSep(x, line, c);
    SplitOnSingle(line, c);
  }

  /** A trailing `c` ends with an empty part. */
  lemma SplitOnTrailing(x: string, c: char)
    ensures SplitOn(x + [c], c) == SplitOn(x, c) + [""]
  {
    SplitOnAppend(x, "", c);
    assert x + [c] + "" == x + [c];
  }

  /** The base case: no `c` in `x`. */
  lemma SplitOnSepFirst(x: string, y: string, c: char)
    requires IndexOf(x, c) == |x|
    ensures SplitOn(x + [c] + y, c) == [x] + SplitOn(y, c)
  {
    var s := x + [c] + y;
    IndexOfAbsent(x, [c] + y, c);
    assert s == x + ([c] + y);
    assert s[..|x|] == x;
    assert s[|x| + 1..] == y;
  }

  /** Splitting on `c` undoes joining with `c`, when no part contains `c`. */
  lemma {:induction false} SplitOnJoin(xs: seq<string>, c: char)
    requires |xs| >= 1
    requires forall x | x in xs :: c !in x
    ensures SplitOn(Join([c], xs), c) == xs
  {
    if |xs| == 1 {
      IndexOfAbsent(xs[0], "", c);
      assert xs[0] + "" == xs[0];
    } else {
      assert xs[0] in xs && forall x | x in xs[1..] :: x in xs;
      IndexOfAbsent(xs[0], "", c);
      assert xs[0] + "" == xs[0];
      SplitOnSepFirst(xs[0], Join([c], xs[1..]), c);
      SplitOnJoin(xs[1..], c);
      assert xs == [xs[0]] + xs[1..];
    }
  }

  // ---------------------------------------------------------------------
  // Decimal rendering of integers, as in f"{n}"

  predicate IsDigit(c: char) {
    '0' <= c <= '9'
  }

  function DigitChar(d: nat): (c: char)
    requires d < 10
    ensures IsDigit(c) && c as int - '0' as int == d
  {
    ('0' as int + d) as char
  }

  /** `str(n)` for a natural number: its decimal digits, without leading
      zeros. */
  function NatToString(n: nat): (s: string)
    ensures |s| >= 1 && forall i :: 0 <= i < |s| ==> IsDigit(s[i])
    ensures |s| > 1 ==> s[0] != '0'
  {
    if n < 10 then [DigitChar(n)] else NatToString(n / 10) + [DigitChar(n % 10)]
  }

  /** `int(s)` for a string of decimal digits. */
  function ParseNat(s: string): nat
    requires forall i :: 0 <= i < |s| ==> IsDigit(s[i])
  {
    if s == [] then 0
    else
      assert IsDigit(s[|s| - 1]);
      ParseNat(s[..|s| - 1]) * 10 + (s[|s| - 1] as int - '0' as int)
  }

  /** Reading back the decimal rendering of `n` gives `n`. */
  lemma {:induction false} ParseNatToString(n: nat)
    ensures ParseNat(NatToString(n)) == n
  {
    if n >= 10 {
      var s := NatToString(n);
      assert s[..|s| - 1] == NatToString(n / 10);
      ParseNatToString(n / 10);
    }
  }

  /** `str(i)` for any integer. */
  function IntToString(i: int): (s: string)
    ensures i < 0 <==> StartsWith(s, "-")
    ensures i < 0 ==> |s| >= 2 && (forall n | 1 <= n < |s| :: IsDigit(s[n])) && ParseNat(s[1..]) == -i
    ensures i >= 0 ==> (forall n | 0 <= n < |s| :: IsDigit(s[n])) && ParseNat(s) == i
    ensures |s| > 1 && IsDigit(s[0]) ==> s[0] != '0'
    ensures |s| > 2 && !IsDigit(s[0]) ==> s[1] != '0'
  {
    if i < 0 then
      var d := NatToString(-i);
      var s := "-" + d;
      assert s[..1] == "-" && s[1..] == d;
      ParseNatToString(-i);
      s
    else
      var s := NatToString(i);
      assert IsDigit(s[0]);
      ParseNatToString(i);
      s
  }

  // ---------------------------------------------------------------------
  // Pieces of regular-expression matching: `\s+`/`\s*` runs and `\b`

  /** The first index at or after `i` that does not hold whitespace: where a
      greedy `\s*` starting at `i` stops. */
  function SkipSpaces(s: string, i: nat): (j: nat)
    requires i <= |s|
    ensures i <= j <= |s|
    ensures j < |s| ==> !IsSpace(s[j])
    decreases |s| - i
  {
    if i < |s| && IsSpace(s[i]) then SkipSpaces(s, i + 1) else i
  }

  /** Everything `SkipSpaces` passes over is whitespace. */
  lemma {:induction false} SkipSpacesRun(s: string, i: nat)
    requires i <= |s|
    ensures forall n | i <= n < SkipSpaces(s, i) :: IsSpace(s[n])
    decreases |s| - i
  {
    if i < |s| && IsSpace(s[i]) {
      SkipSpacesRun(s, i + 1);
    }
  }

  /** `u` holds `s` at offset `off`. */
  predicate HoldsAt(u: string, off: nat, s: string) {
    off + |s| <= |u| && u[off..off + |s|] == s
  }

  lemma HoldsAtChar(u: string, off: nat, s: string, j: nat)
    requires HoldsAt(u, off, s) && j < |s|
    ensures u[off + j] == s[j]
  {
    assert u[off..off + |s|][j] == s[j];
  }

  lemma HoldsAtSlice(u: string, off: nat, s: string, i: nat, j: nat)
    requires HoldsAt(u, off, s) && i <= j <= |s|
    ensures u[off + i..off + j] == s[i..j]
  {
    forall n | 0 <= n < j - i ensures u[off + i..off + j][n] == s[i..j][n] {
      HoldsAtChar(u, off, s, i + n);
    }
  }

  /** `pre + s + post` holds `s` right after `pre`, and its character
      before `s` is the last one of `pre`. */
  lemma HoldsAtMiddle(pre: string, s: string, post: string)
    ensures HoldsAt(pre + s + post, |pre|, s)
    ensures |pre| > 0 ==> (pre + s + post)[|pre| - 1] == pre[|pre| - 1]
  {
    assert (pre + s + post)[|pre|..|pre| + |s|] == s;
  }

  /** Skipping whitespace inside `s` is unaffected by text around it, as
      long as the run ends before the end of `s`. */
  lemma {:induction false} SkipSpacesShift(u: string, off: nat, s: string, i: nat)
    requires HoldsAt(u, off, s)
    requires i <= |s| && SkipSpaces(s, i) < |s|
    ensures SkipSpaces(u, off + i) == off + SkipSpaces(s, i)
    decreases |s| - i
  {
    HoldsAtChar(u, off, s, i);
    if IsSpace(s[i]) {
      SkipSpacesShift(u, off, s, i + 1);
    }
  }

  /** The regular-expression assertion `\b` at index `i`: exactly one of the
      characters on either side is a word character. */
  predicate WordBoundary(s: string, i: nat)
    requires i <= |s|
  {
    (i > 0 && IsWordChar(s[i - 1])) != (i < |s| && IsWordChar(s[i]))
  }

  /** `w` occurs at `i` and is followed by at least one whitespace character. */
  predicate KeywordThenSpace(s: string, i: nat, w: string) {
    StartsAt(s, i, w) && i + |w| < |s| && IsSpace(s[i + |w|])
  }

  /** The alternation `(?:w1|w2|...)\s`: the end of the first of `words`
      found at `i` with whitespace after it. */
  function KeywordEnd(words: seq<string>, s: string, i: nat): (r: Option<nat>)
    ensures r.Some? ==> i <= r.value < |s| && IsSpace(s[r.value])
  {
    if words == [] then None
    else if KeywordThenSpace(s, i, words[0]) then Some(i + |words[0]|)
    else KeywordEnd(words[1..], s, i)
  }

  lemma StartsAtChar(s: string, i: nat, w: string, n: nat)
    ensures StartsAt(s, i, w) && n < |w| ==> s[i + n] == w[n]
  {
    if StartsAt(s, i, w) && n < |w| {
      assert s[i..i + |w|][n] == w[n];
    }
  }

  /** Two whitespace-free words that both start at `i` and are both
      followed by whitespace have the same length. */
  lemma SameGap(s: string, i: nat, w1: string, w2: string)
    requires NoSpace(w1) && NoSpace(w2)
    requires KeywordThenSpace(s, i, w1) && KeywordThenSpace(s, i, w2)
    ensures |w1| == |w2|
  {
    StartsAtChar(s, i, w2, |w1|);
    StartsAtChar(s, i, w1, |w2|);
  }

  /** The order of the alternatives does not matter: whichever of the
      (whitespace-free) words is found at `i` with whitespace after it
      fixes where the alternation ends. */
  lemma {:induction false} KeywordEndUnique(words: seq<string>, s: string, i: nat, w: string)
    requires forall v | v in words :: NoSpace(v)
    requires w in words && KeywordThenSpace(s, i, w)
    ensures KeywordEnd(words, s, i) == Some(i + |w|)
  {
    if KeywordThenSpace(s, i, words[0]) {
      SameGap(s, i, w, words[0]);
    } else {
      assert w in words[1..];
      KeywordEndUnique(words[1..], s, i, w);
    }
  }

  /** The word the alternation found. */
  lemma {:induction false} KeywordEndWitness(words: seq<string>, s: string, i: nat) returns (w: string)
    requires KeywordEnd(words, s, i).Some?
    ensures w in words && KeywordThenSpace(s, i, w) && KeywordEnd(words, s, i) == Some(i + |w|)
  {
    if KeywordThenSpace(s, i, words[0]) {
      w := words[0];
    } else {
      w := KeywordEndWitness(words[1..], s, i);
    }
  }
}
