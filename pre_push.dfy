/**
 * The push guard: a `git push` that may publish to `main` is blocked until
 * the user confirms. The command is split on whitespace; any token equal to
 * `main` decides at once; otherwise only a push made while `main` is checked
 * out can qualify, and then the second positional token (the refspec)
 * decides. `master` is not protected by this hook.
 */
module PrePush {
  import opened Text
  import opened Protocol

  /** A token that names neither a flag nor the words `git` and `push`. */
  predicate IsPositional(token: string) {
    !StartsWith(token, "-") && token != "git" && token != "push"
  }

  /** `[p for p in parts if not p.startswith("-") and p not in ("git", "push")]` */
  function Positional(parts: seq<string>): (pos: seq<string>)
    ensures |pos| <= |parts|
    ensures forall x | x in pos :: x in parts && IsPositional(x)
    ensures forall x | x in parts && IsPositional(x) :: x in pos
  {
    if parts == [] then []
    else (if IsPositional(parts[0]) then [parts[0]] else []) + Positional(parts[1..])
  }

  /** The filter keeps order and repetition: it works token by token, so
      a single token survives exactly when it is positional, and the
      tokens of two halves come out as the two halves' tokens in turn. */
  lemma {:induction false} PositionalAppend(a: seq<string>, b: seq<string>)
    ensures Positional(a + b) == Positional(a) + Positional(b)
    ensures |a| == 1 ==> Positional(a) == if IsPositional(a[0]) then a else []
  {
    if a != [] {
      assert (a + b)[0] == a[0] && (a + b)[1..] == a[1..] + b;
      PositionalAppend(a[1..], b);
    } else {
      assert a + b == b;
    }
  }

  /** The decision of `is_pushing_to_main` once the command is split into
      whitespace tokens, with the current branch passed in. */
  function PushTargetsMain(parts: seq<string>, current: string): (r: bool)
    ensures "main" in parts ==> r
    ensures current != "main" ==> (r <==> "main" in parts)
    ensures current == "main" ==>
      var pos := Positional(parts);
      (r <==> "main" in parts || |pos| < 2 || ':' !in pos[1])
  {
    if "main" in parts then true
    else if current != "main" then false
    else
      var positional := Positional(parts);
      if |positional| >= 2 then
        var refspec := positional[1];
        refspec == "HEAD" || refspec == "main" || ':' !in refspec
      else true
  }

  /** `is_pushing_to_main(command)`: `command.split()`, then the decision. */
  function IsPushingToMain(command: string, current: string): (r: bool)
    ensures "main" in Split(command) ==> r
    ensures current != "main" ==> (r <==> "main" in Split(command))
  {
    PushTargetsMain(Split(command), current)
  }

  const PushBlockedMessage :=
    "BLOCKED: You are about to push to the main branch.\n\n"
    + "You MUST ask the user:\n"
    + "'You're pushing to main. Is this intended, or should I push to a different branch?'\n\n"
    + "Only proceed after explicit user confirmation."

  /** The hook's decision for a shell command while `current` is checked out. */
  function PushDecision(event: Event, current: string): (d: Decision)
    ensures !d.Ask?
    ensures d.Block? <==> IsPushingToMain(event.command, current)
    ensures d.Block? ==> d.reason == PushBlockedMessage
  {
    if IsPushingToMain(event.command, current) then Block(PushBlockedMessage) else Allow
  }

  // ---------------------------------------------------------------------
  // What git itself would publish, to compare the hook against

  /** The branch one refspec updates on the remote: the part after `:` when
      there is one, the current branch for `HEAD`, the named branch
      otherwise. */
  function RefspecDestination(refspec: string, current: string): string {
    var n := IndexOf(refspec, ':');
    if n < |refspec| then refspec[n + 1..]
    else if refspec == "HEAD" then current
    else refspec
  }

  /** The branches `git push [<remote> [<refspec>...]]` updates; with no
      refspec, the current branch (git's default push behaviour). */
  function PushedBranches(pos: seq<string>, current: string): (bs: seq<string>)
    ensures |bs| >= 1
  {
    if |pos| < 2 then [current]
    else seq(|pos| - 1, n requires 0 <= n < |pos| - 1 => RefspecDestination(pos[n + 1], current))
  }

  /** When no refspec uses `:`, every push that git would send to `main` is
      caught. */
  lemma CatchesColonFreePushesToMain(parts: seq<string>, current: string)
    requires var pos := Positional(parts);
      forall n | 1 <= n < |pos| :: ':' !in pos[n]
    requires "main" in PushedBranches(Positional(parts), current)
    ensures PushTargetsMain(parts, current)
  {
    var pos := Positional(parts);
    if |pos| >= 2 {
      var n := MainRefspec(pos, current);
      ColonFreeDestination(pos[n], current);
      if pos[n] != "HEAD" {
        assert pos[n] in pos;
      }
    }
  }

  /** The refspec that sends to `main`. */
  lemma MainRefspec(pos: seq<string>, current: string) returns (n: nat)
    requires |pos| >= 2 && "main" in PushedBranches(pos, current)
    ensures 1 <= n < |pos| && RefspecDestination(pos[n], current) == "main"
  {
    var bs := PushedBranches(pos, current);
    var k :| 0 <= k < |bs| && bs[k] == "main";
    n := k + 1;
  }

  /** A refspec without `:` sends the branch it names, or the current one
      for `HEAD`. */
  lemma ColonFreeDestination(refspec: string, current: string)
    requires ':' !in refspec
    ensures RefspecDestination(refspec, current) == if refspec == "HEAD" then current else refspec
  {
  }

  /** On `main`, a refspec with an explicit destination that is not written
      as the bare token `main` is allowed. */
  lemma ColonRefspecOnMainAllowed(parts: seq<string>)
    requires "main" !in parts
    requires var pos := Positional(parts); |pos| >= 2 && ':' in pos[1]
    ensures !PushTargetsMain(parts, "main")
  {
  }

  /** `git push origin main` from a feature branch is blocked. */
  lemma ExplicitMainBlocked(e: Event)
    requires e.command == "git push origin main"
    ensures PushDecision(e, "feature-x") == Block(PushBlockedMessage)
  {
    var words := ["git", "push", "origin", "main"];
    ExplicitMainWords(words);
    SplitWords(e.command, words);
  }

  lemma ExplicitMainWords(words: seq<string>)
    requires words == ["git", "push", "origin", "main"]
    ensures forall w | w in words :: w != [] && NoSpace(w)
    ensures Join(" ", words) == "git push origin main"
  {
    assert Join(" ", words[3..]) == "main";
    assert Join(" ", words[2..]) == "origin main";
    assert Join(" ", words[1..]) == "push origin main";
  }

  /** A bare `git push` while on `main` is blocked. */
  lemma BarePushOnMainBlocked(e: Event)
    requires e.command == "git push"
    ensures PushDecision(e, "main").Block?
  {
    SplitWords(e.command, ["git", "push"]);
  }

  /** `git push origin main:release` while on `main` is allowed. */
  lemma PushToOtherBranchFromMainAllowed(parts: seq<string>)
    requires parts == ["git", "push", "origin", "main:release"]
    ensures !PushTargetsMain(parts, "main")
  {
    StartsWithChar("origin", '-');
    StartsWithChar("main:release", '-');
    PositionalGitPush("origin", "main:release");
    assert "main:release"[4] == ':';
    ColonRefspecOnMainAllowed(parts);
  }
  lemma HeadColonMainFromFeatureAllowed()
    ensures PushedBranches(["origin", "HEAD:main"], "feature") == ["main"]
    ensures !PushTargetsMain(["git", "push", "origin", "HEAD:main"], "feature")
  {
    assert IndexOf("HEAD:main", ':') == 4;
    assert RefspecDestination("HEAD:main", "feature") == "main";
  }

  /** The other limit: on `main`, pushing another branch by name is blocked
      although git would not touch `main`. */
  lemma OtherBranchByNameFromMainBlocked()
    ensures PushedBranches(["origin", "feature"], "main") == ["feature"]
    ensures PushTargetsMain(["git", "push", "origin", "feature"], "main")
  {
    FeatureDestination();
    StartsWithChar("origin", '-');
    StartsWithChar("feature", '-');
    PositionalGitPush("origin", "feature");
    assert ':' !in "feature";
  }

  lemma FeatureDestination()
    ensures PushedBranches(["origin", "feature"], "main") == ["feature"]
  {
    assert IndexOf("feature", ':') == 7;
    assert RefspecDestination("feature", "main") == "feature";
  }

  /** The positional tokens of `git push REMOTE REFSPEC`. */
  lemma PositionalGitPush(remote: string, refspec: string)
    requires IsPositional(remote) && IsPositional(refspec)
    ensures Positional(["git", "push", remote, refspec]) == [remote, refspec]
  {
    var parts := ["git", "push", remote, refspec];
    assert parts[1..][1..][1..][1..] == [];
    assert Positional(parts[1..][1..][1..]) == [refspec];
    assert Positional(parts[1..][1..]) == [remote, refspec];
    assert Positional(parts[1..]) == [remote, refspec];
  }

  /** `master` is an ordinary branch here: on it, only a `main` token blocks. */
  lemma MasterNotProtected(parts: seq<string>)
    ensures PushTargetsMain(parts, "master") == PushTargetsMain(parts, "feature")
  {
  }
}
