/** What a push run does to the platform's list of open pull requests, and
    why running the handler again for the same bumped version changes
    nothing there.

    The platform is modelled only as far as the push handler touches it:
    closing a pull request removes every open pull request with that
    number, and opening one appends a new, unmerged pull request with the
    given number. The
    number and head commit the platform assigns are parameters. */
module RcConvergence {
  import opened Text
  import opened Effects
  import opened RcNaming
  import opened GitService
  import opened GitHubService
  import opened PushHandler
  import opened Cliff

  /** The open pull requests once number `n` is closed. */
  function Without(pulls: seq<PullRequest>, n: int): (r: seq<PullRequest>)
    ensures |r| <= |pulls|
    ensures forall p :: p in r <==> p in pulls && p.number != n
  {
    if |pulls| == 0 then []
    else (if pulls[0].number == n then [] else [pulls[0]]) + Without(pulls[1..], n)
  }

  /** The open pull requests the push handler's template recognises for
      `ref`, in listing order. */
  function RcPulls(pulls: seq<PullRequest>, ref: string): (r: seq<PullRequest>)
    ensures |r| <= |pulls|
    ensures forall p :: p in r <==> p in pulls && IsRcPullFor(p, ref)
  {
    if |pulls| == 0 then []
    else (if IsRcPullFor(pulls[0], ref) then [pulls[0]] else []) + RcPulls(pulls[1..], ref)
  }

  /** The platform's answer to one effect. */
  function Step(pulls: seq<PullRequest>, e: Effect, num: int, sha: string): seq<PullRequest> {
    match e
    case ClosePull(n) => Without(pulls, n)
    case CreatePull(base, head, _, _) => pulls + [PullRequest(num, head, sha, base, false)]
    case _ => pulls
  }

  /** The open pull requests after a whole trace. */
  function ApplyPulls(pulls: seq<PullRequest>, t: seq<Effect>, num: int, sha: string): seq<PullRequest>
    decreases |t|
  {
    if |t| == 0 then pulls else ApplyPulls(Step(pulls, t[0], num, sha), t[1..], num, sha)
  }

  lemma {:induction false} ApplyAppend(pulls: seq<PullRequest>, s: seq<Effect>, t: seq<Effect>,
                                       num: int, sha: string)
    ensures ApplyPulls(pulls, s + t, num, sha) == ApplyPulls(ApplyPulls(pulls, s, num, sha), t, num, sha)
    decreases |s|
  {
    if |s| == 0 {
      assert s + t == t;
    } else {
      assert (s + t)[0] == s[0];
      assert (s + t)[1..] == s[1..] + t;
      ApplyAppend(Step(pulls, s[0], num, sha), s[1..], t, num, sha);
    }
  }

  /** Effects that neither open nor close a pull request leave the list as
      it was. */
  lemma {:induction false} ApplyInert(pulls: seq<PullRequest>, t: seq<Effect>, num: int, sha: string)
    requires forall e :: e in t ==> !IsPullListChange(e)
    ensures ApplyPulls(pulls, t, num, sha) == pulls
    decreases |t|
  {
    if |t| != 0 {
      assert t[0] in t;
      assert forall e :: e in t[1..] ==> e in t;
      ApplyInert(pulls, t[1..], num, sha);
    }
  }

  lemma ApplySingle(pulls: seq<PullRequest>, e: Effect, num: int, sha: string)
    ensures ApplyPulls(pulls, [e], num, sha) == Step(pulls, e, num, sha)
  {
    assert [e][1..] == [];
  }

  lemma {:induction false} RcPullsAppend(a: seq<PullRequest>, b: seq<PullRequest>, ref: string)
    ensures RcPulls(a + b, ref) == RcPulls(a, ref) + RcPulls(b, ref)
    decreases |a|
  {
    if |a| == 0 {
      assert a + b == b;
    } else {
      assert (a + b)[0] == a[0];
      assert (a + b)[1..] == a[1..] + b;
      RcPullsAppend(a[1..], b, ref);
    }
  }

  /** Closing a pull request and then selecting the matching ones is the
      same as selecting first and closing among them. */
  lemma {:induction false} RcPullsWithout(pulls: seq<PullRequest>, n: int, ref: string)
    ensures RcPulls(Without(pulls, n), ref) == Without(RcPulls(pulls, ref), n)
    decreases |pulls|
  {
    if |pulls| != 0 {
      var h := if pulls[0].number == n then [] else [pulls[0]];
      RcPullsAppend(h, Without(pulls[1..], n), ref);
      RcPullsWithout(pulls[1..], n, ref);
      var g := if IsRcPullFor(pulls[0], ref) then [pulls[0]] else [];
      assert Without(g + RcPulls(pulls[1..], ref), n)
             == Without(g, n) + Without(RcPulls(pulls[1..], ref), n) by {
        if |g| == 1 {
          assert (g + RcPulls(pulls[1..], ref))[1..] == RcPulls(pulls[1..], ref);
        } else {
          assert g + RcPulls(pulls[1..], ref) == RcPulls(pulls[1..], ref);
        }
      }
      assert RcPulls(h, ref) == Without(g, n) by {
        assert h == [] || h[1..] == [];
        assert g == [] || g[1..] == [];
      }
    }
  }

  /** With at most one recognised pull request, the one the handler's
      selection loop finds is the only one there is. */
  lemma RcPullsFirst(pulls: seq<PullRequest>, ref: string)
    requires |RcPulls(pulls, ref)| <= 1
    ensures FirstRcPull(pulls, ref).None? ==> RcPulls(pulls, ref) == []
    ensures FirstRcPull(pulls, ref).Some? ==> RcPulls(pulls, ref) == [pulls[FirstRcPull(pulls, ref).value]]
  {
    var r := RcPulls(pulls, ref);
    if FirstRcPull(pulls, ref).None? {
      assert forall p :: p in pulls ==> !IsRcPullFor(p, ref);
    } else {
      assert pulls[FirstRcPull(pulls, ref).value] in r;
    }
  }

  /** The prelude closes the stale pull request, if any, and nothing else. */
  lemma ApplyPrelude(cfg: Config, d: Decision, pulls: seq<PullRequest>, num: int, sha: string)
    ensures ApplyPulls(pulls, Prelude(cfg, d), num, sha)
            == if d.close.Some? then Without(pulls, d.close.value) else pulls
  {
    var q := [RunProcess(BumpedVersionArgs), ListOpenPulls];
    var c := if d.close.Some? then [ClosePull(d.close.value)] else [];
    var z := [RunProcess(DiffArgs(BodyOptions, cfg.changelogPath))];
    assert Prelude(cfg, d) == q + c + z;
    ApplyAppend(pulls, q + c, z, num, sha);
    ApplyAppend(pulls, q, c, num, sha);
    ApplyInert(pulls, q, num, sha);
    ApplyInert(ApplyPulls(pulls, q + c, num, sha), z, num, sha);
    if d.close.Some? {
      ApplySingle(pulls, ClosePull(d.close.value), num, sha);
    }
  }

  /** A successful create path opens exactly its one pull request. */
  lemma ApplyCreatePath(cfg: Config, ref: string, version: string, body: string, a: PushAnswers,
                        pulls: seq<PullRequest>, num: int, sha: string)
    requires CreatePath(cfg, ref, version, body, a).result.Ok?
    ensures ApplyPulls(pulls, CreatePath(cfg, ref, version, body, a).effects, num, sha)
            == pulls + [PullRequest(num, RcBranchName(version, ref), sha, ref, false)]
  {
    var name := RcBranchName(version, ref);
    var t := CreatePath(cfg, ref, version, body, a).effects;
    CreatePathCounts(cfg, ref, version, body, a);
    var pre := t[..|t| - 1];
    assert t == pre + [t[|t| - 1]];
    assert forall i :: 0 <= i < |pre| ==> pre[i] == t[i];
    assert Count(pre + [t[|t| - 1]], IsCreatePull) == 1;
    CountAppend(pre, [t[|t| - 1]], IsCreatePull);
    CountAppend(pre, [t[|t| - 1]], IsClose);
    CountSingle(t[|t| - 1], IsCreatePull);
    CountSingle(t[|t| - 1], IsClose);
    assert forall e :: e in pre ==> !IsPullListChange(e) by {
      assert forall i :: 0 <= i < |pre| ==> !IsPullListChange(pre[i]);
    }
    ApplyAppend(pulls, pre, [t[|t| - 1]], num, sha);
    ApplyInert(pulls, pre, num, sha);
    ApplySingle(pulls, t[|t| - 1], num, sha);
  }

  /** What a successful run leaves on the platform: the stale pull request,
      if any, is gone, and a pull request from `rc/<version>-<ref>` into the
      pushed branch is appended when none was kept. */
  lemma PushRunPulls(cfg: Config, ref: string, a: PushAnswers, num: int, sha: string)
    requires OnPush(cfg, ref, a).result.Ok?
    ensures var v := Trim(a.bumped.stdout);
            var d := Decide(a.pulls, ref, v);
            var closed := if d.close.Some? then Without(a.pulls, d.close.value) else a.pulls;
            ApplyPulls(a.pulls, OnPush(cfg, ref, a).effects, num, sha)
            == closed + (if d.keep.None? then [PullRequest(num, RcBranchName(v, ref), sha, ref, false)] else [])
  {
    PushOkTools(cfg, ref, a);
    var v := Trim(a.bumped.stdout);
    var d := Decide(a.pulls, ref, v);
    var body := PushBody(v, ref, a);
    var path := PushPath(cfg, ref, v, d, a);
    OnPushTrace(cfg, ref, a);
    ApplyAppend(a.pulls, Prelude(cfg, d), path.effects, num, sha);
    ApplyPrelude(cfg, d, a.pulls, num, sha);
    var closed := if d.close.Some? then Without(a.pulls, d.close.value) else a.pulls;
    match d.keep {
      case None =>
        ApplyCreatePath(cfg, ref, v, body, a, closed, num, sha);
      case Some(pr) =>
        UpdatePathQuiet(cfg, ref, v, body, pr, a);
        ApplyInert(closed, path.effects, num, sha);
    }
  }

  /** Appending the pull request a create path opens to a list without a
      recognised one leaves exactly that one recognised. */
  lemma RcPullsAfterCreate(closed: seq<PullRequest>, ref: string, version: string, num: int, sha: string)
    requires RcPulls(closed, ref) == []
    requires version != [] && NoNewline(version)
    ensures RcPulls(closed + [PullRequest(num, RcBranchName(version, ref), sha, ref, false)], ref)
            == [PullRequest(num, RcBranchName(version, ref), sha, ref, false)]
  {
    var created := PullRequest(num, RcBranchName(version, ref), sha, ref, false);
    TemplateRoundTrip(version, ref);
    assert RcPulls([created], ref) == [created] by {
      assert [created][1..] == [];
    }
    RcPullsAppend(closed, [created], ref);
  }

  /** Closing the only recognised pull request leaves none. */
  lemma RcPullsAfterClose(pulls: seq<PullRequest>, ref: string, pr: PullRequest)
    requires RcPulls(pulls, ref) == [pr]
    ensures RcPulls(Without(pulls, pr.number), ref) == []
  {
    RcPullsWithout(pulls, pr.number, ref);
    var w := Without(RcPulls(pulls, ref), pr.number);
    assert forall p :: p in w ==> p == pr && p.number != pr.number;
  }

  /** The list-level half of convergence: whatever the decision, the
      resulting list holds exactly one recognised pull request, the one for
      the bumped version. */
  lemma DecisionConverges(pulls: seq<PullRequest>, ref: string, version: string, num: int, sha: string)
    requires version != [] && NoNewline(version)
    requires |RcPulls(pulls, ref)| <= 1
    ensures var d := Decide(pulls, ref, version);
            var closed := if d.close.Some? then Without(pulls, d.close.value) else pulls;
            var after := closed + (if d.keep.None? then [PullRequest(num, RcBranchName(version, ref), sha, ref, false)] else []);
            |RcPulls(after, ref)| == 1 && RcPulls(after, ref)[0].headRef == RcBranchName(version, ref)
  {
    var d := Decide(pulls, ref, version);
    RcPullsFirst(pulls, ref);
    match d.keep {
      case Some(pr) =>
        assert RcPulls(pulls, ref) == [pr];
        assert pulls + [] == pulls;
      case None =>
        if d.close.Some? {
          RcPullsAfterClose(pulls, ref, pulls[FirstRcPull(pulls, ref).value]);
          RcPullsAfterCreate(Without(pulls, d.close.value), ref, version, num, sha);
        } else {
          RcPullsAfterCreate(pulls, ref, version, num, sha);
        }
    }
  }

  /** Convergence: from a list with at most one release-candidate pull
      request for the branch, a successful run leaves exactly one, and it
      is the one for the bumped version. */
  lemma PushConverges(cfg: Config, ref: string, a: PushAnswers, num: int, sha: string)
    requires OnPush(cfg, ref, a).result.Ok?
    requires Trim(a.bumped.stdout) != [] && NoNewline(Trim(a.bumped.stdout))
    requires |RcPulls(a.pulls, ref)| <= 1
    ensures var after := ApplyPulls(a.pulls, OnPush(cfg, ref, a).effects, num, sha);
            |RcPulls(after, ref)| == 1
            && RcPulls(after, ref)[0].headRef == RcBranchName(Trim(a.bumped.stdout), ref)
  {
    PushRunPulls(cfg, ref, a, num, sha);
    DecisionConverges(a.pulls, ref, Trim(a.bumped.stdout), num, sha);
  }

  /** A list holding exactly one recognised pull request, for the bumped
      version, makes the handler keep it. */
  lemma SingleRcPullKept(pulls: seq<PullRequest>, ref: string, version: string)
    requires version != [] && NoNewline(version)
    requires |RcPulls(pulls, ref)| == 1 && RcPulls(pulls, ref)[0].headRef == RcBranchName(version, ref)
    ensures Decide(pulls, ref, version) == Decision(None, Some(RcPulls(pulls, ref)[0]))
  {
    RcPullsFirst(pulls, ref);
    TemplateRoundTrip(version, ref);
  }

  /** A run whose decision keeps a pull request closes nothing, opens
      nothing and creates no branch, however it ends. */
  lemma KeptRunQuiet(cfg: Config, ref: string, a: PushAnswers)
    requires a.bumped.code == 0
    requires Decide(a.pulls, ref, Trim(a.bumped.stdout)).keep.Some?
    ensures forall e :: e in OnPush(cfg, ref, a).effects ==> !IsPullListChange(e) && !IsBranchCreation(e)
  {
    var v := Trim(a.bumped.stdout);
    var d := Decide(a.pulls, ref, v);
    PreludeMembers(cfg, d);
    if a.diff.code == 0 {
      OnPushTrace(cfg, ref, a);
      UpdatePathQuiet(cfg, ref, v, PushBody(v, ref, a), d.keep.value, a);
    }
  }

  /** Rerunning for the same bumped version against the list the first run
      left keeps that run's pull request: nothing is closed, nothing is
      opened, and no branch is created. */
  lemma PushRerunOpensNothing(cfg: Config, ref: string, a: PushAnswers, a': PushAnswers,
                              num: int, sha: string)
    requires OnPush(cfg, ref, a).result.Ok?
    requires Trim(a.bumped.stdout) != [] && NoNewline(Trim(a.bumped.stdout))
    requires |RcPulls(a.pulls, ref)| <= 1
    requires a'.bumped == a.bumped
    requires a'.pulls == ApplyPulls(a.pulls, OnPush(cfg, ref, a).effects, num, sha)
    ensures var d' := Decide(a'.pulls, ref, Trim(a.bumped.stdout));
            d'.close.None? && d'.keep.Some?
            && d'.keep.value.headRef == RcBranchName(Trim(a.bumped.stdout), ref)
    ensures forall e :: e in OnPush(cfg, ref, a').effects ==> !IsPullListChange(e) && !IsBranchCreation(e)
  {
    PushOkTools(cfg, ref, a);
    PushConverges(cfg, ref, a, num, sha);
    SingleRcPullKept(a'.pulls, ref, Trim(a.bumped.stdout));
    KeptRunQuiet(cfg, ref, a');
  }
}
