/** The push handler recognises its release-candidate pull requests by the
    head ref alone: `^rc/(?P<version>.+)-<ref>$` only asks that the head end
    in `-<ref>`. A pull request into another branch whose name ends in
    `-<ref>` (`rc/v1.2.0-hotfix-main` into `hotfix-main`, for a push to
    `main`) matches too, with the version group swallowing the rest of the
    name, and is then closed or updated as if it were the pushed branch's.

    This module exhibits that with the handler as written, and defines the
    evidently intended selection, which only looks at pull requests into
    the pushed branch. */
module BaseFilter {
  import opened Text
  import opened Effects
  import opened RcNaming
  import opened GitHubService
  import opened PushHandler
  import opened GitService
  import opened Cliff

  /** The open pull requests into `ref`, in listing order. */
  function ForBase(pulls: seq<PullRequest>, ref: string): (r: seq<PullRequest>)
    ensures |r| <= |pulls|
    ensures forall p :: p in r <==> p in pulls && p.baseRef == ref
  {
    if |pulls| == 0 then []
    else (if pulls[0].baseRef == ref then [pulls[0]] else []) + ForBase(pulls[1..], ref)
  }

  lemma {:induction false} ForBaseAppend(a: seq<PullRequest>, b: seq<PullRequest>, ref: string)
    ensures ForBase(a + b, ref) == ForBase(a, ref) + ForBase(b, ref)
    decreases |a|
  {
    if |a| == 0 {
      assert a + b == b;
    } else {
      assert (a + b)[0] == a[0];
      assert (a + b)[1..] == a[1..] + b;
      ForBaseAppend(a[1..], b, ref);
    }
  }

  /** The corrected selection and stale-version rule: the handler's rule
      applied to the pull requests into the pushed branch only. Whatever it
      closes or keeps is a release-candidate pull request into `ref`. */
  function DecideForBase(pulls: seq<PullRequest>, ref: string, version: string): (d: Decision)
    ensures d.close.None? || d.keep.None?
    ensures d.close.Some? ==>
              exists p :: p in pulls && p.baseRef == ref && IsRcPullFor(p, ref) && p.number == d.close.value
    ensures d.keep.Some? ==>
              d.keep.value in pulls && d.keep.value.baseRef == ref
              && d.keep.value.headRef == RcBranchName(version, ref)
  {
    var own := ForBase(pulls, ref);
    var d := Decide(own, ref, version);
    assert d.close.Some? ==> own[FirstRcPull(own, ref).value] in own;
    d
  }

  /** Pull requests into other branches have no say in the corrected
      decision, wherever they are listed. */
  lemma DecideForBaseIgnoresForeign(a: seq<PullRequest>, foreign: seq<PullRequest>, b: seq<PullRequest>,
                                    ref: string, version: string)
    requires forall p :: p in foreign ==> p.baseRef != ref
    ensures DecideForBase(a + foreign + b, ref, version) == DecideForBase(a + b, ref, version)
  {
    ForBaseAppend(a + foreign, b, ref);
    ForBaseAppend(a, foreign, ref);
    ForBaseAppend(a, b, ref);
    ForBaseNone(foreign, ref);
    assert ForBase(a, ref) + [] == ForBase(a, ref);
  }

  /** On pull requests that all go into the pushed branch, the corrected rule
      and the handler's rule agree. */
  lemma DecideForBaseAgrees(pulls: seq<PullRequest>, ref: string, version: string)
    requires forall p :: p in pulls ==> p.baseRef == ref
    ensures DecideForBase(pulls, ref, version) == Decide(pulls, ref, version)
  {
    ForBaseAll(pulls, ref);
  }

  lemma {:induction false} ForBaseAll(pulls: seq<PullRequest>, ref: string)
    requires forall p :: p in pulls ==> p.baseRef == ref
    ensures ForBase(pulls, ref) == pulls
    decreases |pulls|
  {
    if |pulls| != 0 {
      assert pulls[0].baseRef == ref by {
        assert pulls[0] in pulls;
      }
      assert forall p :: p in pulls[1..] ==> p in pulls;
      ForBaseAll(pulls[1..], ref);
      assert ForBase(pulls, ref) == [pulls[0]] + ForBase(pulls[1..], ref);
    }
  }

  lemma {:induction false} ForBaseNone(pulls: seq<PullRequest>, ref: string)
    requires forall p :: p in pulls ==> p.baseRef != ref
    ensures ForBase(pulls, ref) == []
    decreases |pulls|
  {
    if |pulls| != 0 {
      assert pulls[0] in pulls;
      assert forall p :: p in pulls[1..] ==> p in pulls;
      ForBaseNone(pulls[1..], ref);
    }
  }

  /** The release-candidate pull request of `hotfix-main` in the example. */
  const HotfixPull: PullRequest :=
    PullRequest(7, RcBranchName("v1.2.0", "hotfix-main"), "c0ffee", "hotfix-main", false)

  /** As written: for a push to `main` with bumped version `v1.2.0`, the
      template matches the head `rc/v1.2.0-hotfix-main` of a pull request into
      `hotfix-main`, captures `v1.2.0-hotfix`, finds it stale and closes that
      pull request, which belongs to another branch. The corrected rule
      leaves it alone. */
  lemma ForeignRcPullClosed()
    ensures MatchTemplate(HotfixPull.headRef, "main") == Some("v1.2.0-hotfix")
    ensures Decide([HotfixPull], "main", "v1.2.0") == Decision(Some(7), None)
    ensures DecideForBase([HotfixPull], "main", "v1.2.0") == Decision(None, None)
  {
    assert RcBranchName("v1.2.0", "hotfix-main") == RcBranchName("v1.2.0-hotfix", "main");
    assert NoNewline("v1.2.0-hotfix");
    TemplateRoundTrip("v1.2.0-hotfix", "main");
    assert ForBase([HotfixPull], "main") == [] by {
      assert [HotfixPull][1..] == [];
    }
  }

  /** The whole run as written, on the example: once the tools answer, the
      push to `main` closes pull request 7 of `hotfix-main`. */
  lemma ForeignRcPullClosedByRun(cfg: Config, a: PushAnswers)
    requires a.bumped.code == 0 && a.bumped.stdout == "v1.2.0"
    requires a.pulls == [HotfixPull]
    ensures ClosePull(7) in OnPush(cfg, "main", a).effects
  {
    assert Trim("v1.2.0") == "v1.2.0" by {
      TrimPadding([], "v1.2.0", []);
      assert [] + "v1.2.0" + [] == "v1.2.0";
    }
    ForeignRcPullClosed();
    var d := Decide(a.pulls, "main", "v1.2.0");
    assert Prelude(cfg, d)[2] == ClosePull(7);
    if a.diff.code == 0 {
      OnPushTrace(cfg, "main", a);
      assert OnPush(cfg, "main", a).effects[2] == ClosePull(7);
    }
  }

  /** The corrected handler: the handler run on the pull requests into the
      pushed branch only. */
  function OnPushForBase(cfg: Config, ref: string, a: PushAnswers): (r: Run<()>)
    ensures |r.effects| >= 1 && r.effects[0] == RunProcess(BumpedVersionArgs)
  {
    OnPush(cfg, ref, a.(pulls := ForBase(a.pulls, ref)))
  }

  /** The corrected handler closes at most one pull request, and only a
      release-candidate pull request into the pushed branch. */
  lemma OnPushForBaseClosesOwn(cfg: Config, ref: string, a: PushAnswers)
    ensures Count(OnPushForBase(cfg, ref, a).effects, IsClose) <= 1
    ensures forall e :: e in OnPushForBase(cfg, ref, a).effects && e.ClosePull? ==>
              exists p :: p in a.pulls && p.baseRef == ref && IsRcPullFor(p, ref) && p.number == e.number
  {
    var a' := a.(pulls := ForBase(a.pulls, ref));
    PushClosesAtMostOnce(cfg, ref, a');
    forall e | e in OnPushForBase(cfg, ref, a).effects && e.ClosePull?
      ensures exists p :: p in a.pulls && p.baseRef == ref && IsRcPullFor(p, ref) && p.number == e.number
    {
      var d := DecideForBase(a.pulls, ref, Trim(a.bumped.stdout));
      assert d.close == Some(e.number);
    }
  }

  /** The corrected handler never closes anything when no open pull request
      goes into the pushed branch; in particular it leaves pull request 7 of
      `hotfix-main` open on a push to `main`. */
  lemma ForeignPullsNeverClosed(cfg: Config, ref: string, a: PushAnswers)
    requires forall p :: p in a.pulls ==> p.baseRef != ref
    ensures forall e :: e in OnPushForBase(cfg, ref, a).effects ==> !e.ClosePull?
  {
    OnPushForBaseClosesOwn(cfg, ref, a);
  }
}
