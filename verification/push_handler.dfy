/** `on_push` (events/push.py): keep one open release-candidate pull request
    for the pushed branch in step with the version git-cliff says comes next.

    The handler's inputs are the pushed branch name, the service settings and
    everything the outside world answers during the run (`PushAnswers`); its
    output is the effect trace. */
module PushHandler {
  import opened Text
  import opened Effects
  import opened Cliff
  import opened RcNaming
  import opened GitService
  import opened GitHubService

  /** What the outside world answers during one push run: the
      `--bumped-version` run, the open pull requests in listing order, the
      diff run that yields the body, the local branches, and the answers the
      version bump meets. */
  datatype PushAnswers = PushAnswers(bumped: ProcessResult, pulls: seq<PullRequest>,
                                     diff: ProcessResult, branches: set<string>,
                                     bump: BumpAnswers)

  /** `f'[Release Candidate] {bumped_version}-{ref_name} 🚀'` */
  function RcTitle(version: string, ref: string): string {
    "[Release Candidate] " + version + "-" + ref + " \U{1F680}"
  }

  predicate IsRcPullFor(pr: PullRequest, ref: string) {
    MatchTemplate(pr.headRef, ref).Some?
  }

  /** The loop at the top of `on_push`: the index of the first open pull
      request whose head ref matches the template, if any. */
  function FirstRcPull(pulls: seq<PullRequest>, ref: string): (k: Option<nat>)
    ensures k.Some? ==> k.value < |pulls| && IsRcPullFor(pulls[k.value], ref)
    ensures k.Some? ==> forall j :: 0 <= j < k.value ==> !IsRcPullFor(pulls[j], ref)
    ensures k.None? <==> forall j :: 0 <= j < |pulls| ==> !IsRcPullFor(pulls[j], ref)
  {
    if |pulls| == 0 then None
    else if IsRcPullFor(pulls[0], ref) then Some(0)
    else match FirstRcPull(pulls[1..], ref)
      case None => None
      case Some(k) => Some(k + 1)
  }

  /** What the handler does with the open pull requests: which one it
      closes as stale, and which one it keeps and updates. */
  datatype Decision = Decision(close: Option<int>, keep: Option<PullRequest>)

  /** The selection and the stale-version rule: the first matching pull
      request is kept when its captured version is the bumped version and
      closed otherwise; later matches are never looked at. */
  function Decide(pulls: seq<PullRequest>, ref: string, version: string): (d: Decision)
    ensures d.close.None? || d.keep.None?
    ensures d.keep.Some? ==> d.keep.value in pulls && d.keep.value.headRef == RcBranchName(version, ref)
    ensures FirstRcPull(pulls, ref).None? ==> d == Decision(None, None)
    ensures FirstRcPull(pulls, ref).Some? ==>
              var pr := pulls[FirstRcPull(pulls, ref).value];
              if MatchTemplate(pr.headRef, ref) == Some(version)
              then d == Decision(None, Some(pr))
              else d == Decision(Some(pr.number), None)
  {
    match FirstRcPull(pulls, ref)
    case None => Decision(None, None)
    case Some(k) =>
      if MatchTemplate(pulls[k].headRef, ref).value != version
      then Decision(Some(pulls[k].number), None)
      else Decision(None, Some(pulls[k]))
  }

  /** Once some pull request matches, what is listed after it has no
      influence on the decision. */
  lemma {:induction false} DecideIgnoresLaterPulls(pulls: seq<PullRequest>, more: seq<PullRequest>,
                                                   ref: string, version: string)
    requires FirstRcPull(pulls, ref).Some?
    ensures FirstRcPull(pulls + more, ref) == FirstRcPull(pulls, ref)
    ensures Decide(pulls + more, ref, version) == Decide(pulls, ref, version)
    decreases |pulls|
  {
    assert (pulls + more)[0] == pulls[0];
    if !IsRcPullFor(pulls[0], ref) {
      assert (pulls + more)[1..] == pulls[1..] + more;
      DecideIgnoresLaterPulls(pulls[1..], more, ref, version);
    }
  }

  /** The comparison link in the body names the bumped version, whose tag
      does not exist yet; every `...<version>` is pointed at the
      release-candidate branch instead. */
  function RewriteCompareLink(body: string, version: string, ref: string): string {
    Replace(body, "..." + version, "..." + RcBranchName(version, ref))
  }

  /** The rewrite changes the body's length by one branch-name difference per
      link it rewrites, and leaves a body without such a link untouched. */
  lemma RewriteCompareLinkEffect(body: string, version: string, ref: string)
    ensures |RewriteCompareLink(body, version, ref)|
            == |body| + Occurrences(body, "..." + version) * (|RcBranchName(version, ref)| - |version|)
    ensures Occurrences(body, "..." + version) == 0 ==> RewriteCompareLink(body, version, ref) == body
  {
    ReplaceLength(body, "..." + version, "..." + RcBranchName(version, ref));
    if Occurrences(body, "..." + version) == 0 {
      ReplaceAbsent(body, "..." + version, "..." + RcBranchName(version, ref));
    }
  }

  /** The body comes back unchanged exactly when it holds no `...<version>`
      link anywhere; one link is enough to change it. */
  lemma RewriteCompareLinkUnchanged(body: string, version: string, ref: string)
    ensures RewriteCompareLink(body, version, ref) == body <==> forall j :: !OccursAt(body, "..." + version, j)
  {
    var n := Occurrences(body, "..." + version);
    RewriteCompareLinkEffect(body, version, ref);
    OccurrencesZero(body, "..." + version);
    if n != 0 {
      MulPositive(n, |RcBranchName(version, ref)| - |version|);
    }
  }

  lemma MulPositive(c: nat, d: int)
    requires c > 0 && d > 0
    ensures c * d > 0
  {
  }

  /** Every `...<version>` link is pointed at the release-candidate branch
      and nothing else in the body changes: the body and its rewrite are
      the same pieces, glued back with the old and the new link text, and
      no piece holds a `...<version>` link of its own. */
  lemma RewriteCompareLinkPieces(body: string, version: string, ref: string)
    ensures var ps := Pieces(body, "..." + version);
            && |ps| == Occurrences(body, "..." + version) + 1
            && body == Join(ps, "..." + version)
            && RewriteCompareLink(body, version, ref) == Join(ps, "..." + RcBranchName(version, ref))
            && forall k, j :: 0 <= k < |ps| ==> !OccursAt(ps[k], "..." + version, j)
  {
    ReplaceIsJoin(body, "..." + version, "..." + RcBranchName(version, ref));
    SplitJoin(body, "..." + version);
    var ps := Pieces(body, "..." + version);
    forall k, j | 0 <= k < |ps|
      ensures !OccursAt(ps[k], "..." + version, j)
    {
      PiecesFree(body, "..." + version, k, j);
    }
  }

  /** The effects up to and including the body generation. */
  function Prelude(cfg: Config, d: Decision): seq<Effect> {
    [RunProcess(BumpedVersionArgs), ListOpenPulls]
    + (if d.close.Some? then [ClosePull(d.close.value)] else [])
    + [RunProcess(DiffArgs(BodyOptions, cfg.changelogPath))]
  }

  /** No matching pull request survived: create the branch if it is not a
      local branch yet, bump and commit on it, open the pull request. */
  function CreatePath(cfg: Config, ref: string, version: string, body: string, a: PushAnswers): (r: Run<()>)
    ensures r.result.Ok? <==> BumpVersion(cfg, BumpRequest(version, RcBranchName(version, ref), true, true, false), a.bump).result.Ok?
  {
    var name := RcBranchName(version, ref);
    var up := UpsertBranch(a.branches, name, ref);
    var b := BumpVersion(cfg, BumpRequest(version, name, true, true, false), a.bump);
    if b.result.Err? then Run(up.effects + b.effects, Err(b.result.error))
    else Run(up.effects + b.effects + [CreatePullRequest(name, ref, RcTitle(version, ref), body)], Ok(()))
  }

  /** A matching pull request carries the bumped version: reset, force the
      bump onto the branch, edit the same pull request. */
  function UpdatePath(cfg: Config, ref: string, version: string, body: string, pr: PullRequest,
                      a: PushAnswers): (r: Run<()>)
    ensures r.result.Ok? <==> BumpVersion(cfg, BumpRequest(version, RcBranchName(version, ref), true, true, true), a.bump).result.Ok?
  {
    var name := RcBranchName(version, ref);
    var b := BumpVersion(cfg, BumpRequest(version, name, true, true, true), a.bump);
    if b.result.Err? then Run([ResetHard(pr.headSha)] + b.effects, Err(b.result.error))
    else Run([ResetHard(pr.headSha)] + b.effects + [EditPull(pr.number, RcTitle(version, ref), body)], Ok(()))
  }

  /** The body text the run puts on the pull request. */
  function PushBody(version: string, ref: string, a: PushAnswers): string {
    RewriteCompareLink(Trim(a.diff.stdout), version, ref)
  }

  /** The create or the update path, after the body was generated. */
  function PushPath(cfg: Config, ref: string, version: string, d: Decision, a: PushAnswers): Run<()> {
    match d.keep
    case None => CreatePath(cfg, ref, version, PushBody(version, ref, a), a)
    case Some(pr) => UpdatePath(cfg, ref, version, PushBody(version, ref, a), pr, a)
  }

  /** `on_push` */
  function OnPush(cfg: Config, ref: string, a: PushAnswers): (r: Run<()>)
    ensures |r.effects| >= 1 && r.effects[0] == RunProcess(BumpedVersionArgs)
  {
    var bumped := RunTool(BumpedVersionArgs, a.bumped);
    if bumped.result.Err? then
      Run(bumped.effects, Err(bumped.result.error))
    else
      var version := bumped.result.value;
      var d := Decide(a.pulls, ref, version);
      var diff := RunTool(DiffArgs(BodyOptions, cfg.changelogPath), a.diff);
      if diff.result.Err? then
        Run(Prelude(cfg, d), Err(diff.result.error))
      else
        var path := PushPath(cfg, ref, version, d, a);
        Run(Prelude(cfg, d) + path.effects, path.result)
  }

  // ---------------------------------------------------------------------
  // Properties of one run

  /** The effects of the prelude: two queries, the stale close if any, and
      the body generation. */
  lemma PreludeFacts(cfg: Config, d: Decision)
    ensures Count(Prelude(cfg, d), IsClose) == if d.close.Some? then 1 else 0
    ensures forall i :: 0 <= i < |Prelude(cfg, d)| ==>
              var e := Prelude(cfg, d)[i];
              (e.ClosePull? ==> d.close == Some(e.number))
              && !e.CreatePull? && !e.EditPull? && !IsBranchCreation(e) && !e.ResetHard?
              && !e.Commit? && !e.Push?
  {
    var t := Prelude(cfg, d);
    var c := if d.close.Some? then [ClosePull(d.close.value)] else [];
    assert t == [RunProcess(BumpedVersionArgs), ListOpenPulls] + c + [RunProcess(DiffArgs(BodyOptions, cfg.changelogPath))];
    CountAppend([RunProcess(BumpedVersionArgs), ListOpenPulls] + c, [RunProcess(DiffArgs(BodyOptions, cfg.changelogPath))], IsClose);
    CountAppend([RunProcess(BumpedVersionArgs), ListOpenPulls], c, IsClose);
    if d.close.Some? {
      CountSingle(ClosePull(d.close.value), IsClose);
    }
    assert Count([RunProcess(BumpedVersionArgs), ListOpenPulls], IsClose) == 0;
    assert Count([RunProcess(DiffArgs(BodyOptions, cfg.changelogPath))], IsClose) == 0;
  }

  /** The path a run takes, once its body was generated. */
  lemma OnPushTrace(cfg: Config, ref: string, a: PushAnswers)
    requires a.bumped.code == 0 && a.diff.code == 0
    ensures var d := Decide(a.pulls, ref, Trim(a.bumped.stdout));
            var path := PushPath(cfg, ref, Trim(a.bumped.stdout), d, a);
            OnPush(cfg, ref, a) == Run(Prelude(cfg, d) + path.effects, path.result)
  {
  }

  /** Neither path closes a pull request. */
  lemma PushPathNoClose(cfg: Config, ref: string, version: string, d: Decision, a: PushAnswers)
    ensures Count(PushPath(cfg, ref, version, d, a).effects, IsClose) == 0
  {
    var t := PushPath(cfg, ref, version, d, a).effects;
    var body := PushBody(version, ref, a);
    match d.keep {
      case None => CreatePathQuiet(cfg, ref, version, body, a);
      case Some(pr) => UpdatePathQuiet(cfg, ref, version, body, pr, a);
    }
    assert forall i :: 0 <= i < |t| ==> t[i] in t;
  }

  /** The create path closes nothing and edits nothing. */
  lemma CreatePathQuiet(cfg: Config, ref: string, version: string, body: string, a: PushAnswers)
    ensures forall e :: e in CreatePath(cfg, ref, version, body, a).effects ==>
              !e.ClosePull? && !e.EditPull? && !e.ResetHard?
  {
    var name := RcBranchName(version, ref);
    var q := BumpRequest(version, name, true, true, false);
    var up := UpsertBranch(a.branches, name, ref).effects;
    BumpEffectMembers(cfg, q, a.bump);
    var b := BumpVersion(cfg, q, a.bump).effects;
    assert forall e :: e in CreatePath(cfg, ref, version, body, a).effects ==> e in up || e in b || e.CreatePull?;
  }

  /** The update path closes nothing, opens nothing and creates no branch. */
  lemma UpdatePathQuiet(cfg: Config, ref: string, version: string, body: string, pr: PullRequest,
                        a: PushAnswers)
    ensures forall e :: e in UpdatePath(cfg, ref, version, body, pr, a).effects ==>
              !e.ClosePull? && !e.CreatePull? && !IsBranchCreation(e)
  {
    var name := RcBranchName(version, ref);
    var q := BumpRequest(version, name, true, true, true);
    BumpEffectMembers(cfg, q, a.bump);
    var b := BumpVersion(cfg, q, a.bump).effects;
    assert forall e :: e in UpdatePath(cfg, ref, version, body, pr, a).effects ==>
             e in b || e.ResetHard? || e.EditPull?;
  }

  /** At most one pull request is closed per run, and the only one that can
      be is the one the stale-version rule picks. */
  lemma PushClosesAtMostOnce(cfg: Config, ref: string, a: PushAnswers)
    ensures Count(OnPush(cfg, ref, a).effects, IsClose) <= 1
    ensures forall e :: e in OnPush(cfg, ref, a).effects && e.ClosePull? ==>
              a.bumped.code == 0 && Decide(a.pulls, ref, Trim(a.bumped.stdout)).close == Some(e.number)
  {
    var r := OnPush(cfg, ref, a);
    if a.bumped.code != 0 {
      assert r.effects == [RunProcess(BumpedVersionArgs)];
      CountSingle(RunProcess(BumpedVersionArgs), IsClose);
    } else {
      var v := Trim(a.bumped.stdout);
      var d := Decide(a.pulls, ref, v);
      PreludeFacts(cfg, d);
      assert forall e :: e in Prelude(cfg, d) && e.ClosePull? ==> d.close == Some(e.number);
      if a.diff.code == 0 {
        var path := PushPath(cfg, ref, v, d, a);
        OnPushTrace(cfg, ref, a);
        PushPathNoClose(cfg, ref, v, d, a);
        CountAppend(Prelude(cfg, d), path.effects, IsClose);
        assert forall e :: e in path.effects ==> !e.ClosePull?;
      }
    }
  }

  /** The create path's effects before its final pull request: the upsert
      and the bump, none of which opens, edits, resets or closes anything. */
  lemma CreatePathPrefix(cfg: Config, ref: string, version: string, body: string, a: PushAnswers)
    requires CreatePath(cfg, ref, version, body, a).result.Ok?
    ensures var t := CreatePath(cfg, ref, version, body, a).effects;
            && |t| >= 1
            && t[|t| - 1] == CreatePull(ref, RcBranchName(version, ref), RcTitle(version, ref), body)
            && forall i :: 0 <= i < |t| - 1 ==>
                 !t[i].CreatePull? && !t[i].EditPull? && !t[i].ResetHard? && !t[i].ClosePull?
  {
    var name := RcBranchName(version, ref);
    var q := BumpRequest(version, name, true, true, false);
    var up := UpsertBranch(a.branches, name, ref).effects;
    var b := BumpVersion(cfg, q, a.bump).effects;
    var t := CreatePath(cfg, ref, version, body, a).effects;
    assert t == up + b + [CreatePull(ref, name, RcTitle(version, ref), body)];
    BumpEffectMembers(cfg, q, a.bump);
    assert forall i :: 0 <= i < |t| - 1 ==> t[i] in up || t[i] in b;
  }

  /** The create path on its own, when its bump succeeded: it ends with
      exactly one new pull request, and edits, resets and closes nothing. */
  lemma CreatePathCounts(cfg: Config, ref: string, version: string, body: string, a: PushAnswers)
    requires CreatePath(cfg, ref, version, body, a).result.Ok?
    ensures var t := CreatePath(cfg, ref, version, body, a).effects;
            var name := RcBranchName(version, ref);
            && |t| >= 1
            && t[|t| - 1] == CreatePull(ref, name, RcTitle(version, ref), body)
            && Count(t, IsCreatePull) == 1
            && Count(t, IsEditPull) == 0
            && Count(t, IsReset) == 0
            && Count(t, IsClose) == 0
  {
    var t := CreatePath(cfg, ref, version, body, a).effects;
    CreatePathPrefix(cfg, ref, version, body, a);
    CountLast(t, IsCreatePull);
    CountLast(t, IsEditPull);
    CountLast(t, IsReset);
    CountLast(t, IsClose);
  }

  /** The create path creates the branch from the pushed branch exactly when
      it is not a local branch yet, and its pushes are not forced. */
  lemma CreatePathBranches(cfg: Config, ref: string, version: string, body: string, a: PushAnswers)
    ensures var t := CreatePath(cfg, ref, version, body, a).effects;
            var name := RcBranchName(version, ref);
            && (CheckoutNewBranch(ref, name) in t <==> name !in a.branches)
            && (PushUpstream(name) in t <==> name !in a.branches)
            && (forall e :: e in t && e.Push? ==> e == Push(name + ":" + name, false))
  {
    var name := RcBranchName(version, ref);
    var q := BumpRequest(version, name, true, true, false);
    var up := UpsertBranch(a.branches, name, ref).effects;
    var b := BumpVersion(cfg, q, a.bump).effects;
    BumpEffectMembers(cfg, q, a.bump);
    var t := CreatePath(cfg, ref, version, body, a).effects;
    assert forall e :: e in t ==> e in up || e in b || e.CreatePull?;
  }

  /** The update path's effects before its final edit: a reset to the kept
      pull request's head, then the forced bump, none of which opens, edits,
      closes or creates anything on the platform or the remote. */
  lemma UpdatePathPrefix(cfg: Config, ref: string, version: string, body: string, pr: PullRequest,
                         a: PushAnswers)
    requires UpdatePath(cfg, ref, version, body, pr, a).result.Ok?
    ensures var t := UpdatePath(cfg, ref, version, body, pr, a).effects;
            && |t| >= 2
            && t[0] == ResetHard(pr.headSha)
            && t[|t| - 1] == EditPull(pr.number, RcTitle(version, ref), body)
            && forall i :: 0 <= i < |t| - 1 ==>
                 !t[i].CreatePull? && !t[i].EditPull? && !IsBranchCreation(t[i]) && !t[i].ClosePull?
  {
    var name := RcBranchName(version, ref);
    var q := BumpRequest(version, name, true, true, true);
    var b := BumpVersion(cfg, q, a.bump).effects;
    var t := UpdatePath(cfg, ref, version, body, pr, a).effects;
    var m := [ResetHard(pr.headSha)] + b;
    assert t == m + [EditPull(pr.number, RcTitle(version, ref), body)];
    BumpEffectMembers(cfg, q, a.bump);
    forall i | 0 <= i < |t| - 1
      ensures !t[i].CreatePull? && !t[i].EditPull? && !IsBranchCreation(t[i]) && !t[i].ClosePull?
    {
      assert t[i] == m[i];
      if i > 0 {
        assert t[i] == b[i - 1] && b[i - 1] in b;
      }
    }
  }

  /** The update path on its own, when its bump succeeded: exactly one edit
      of the kept pull request, at the end; nothing is created, opened or
      closed. */
  lemma UpdatePathShape(cfg: Config, ref: string, version: string, body: string, pr: PullRequest,
                        a: PushAnswers)
    requires UpdatePath(cfg, ref, version, body, pr, a).result.Ok?
    ensures var t := UpdatePath(cfg, ref, version, body, pr, a).effects;
            && |t| >= 1
            && t[|t| - 1] == EditPull(pr.number, RcTitle(version, ref), body)
            && t[0] == ResetHard(pr.headSha)
            && Count(t, IsEditPull) == 1
            && Count(t, IsCreatePull) == 0
            && Count(t, IsBranchCreation) == 0
            && Count(t, IsClose) == 0
  {
    var t := UpdatePath(cfg, ref, version, body, pr, a).effects;
    UpdatePathPrefix(cfg, ref, version, body, pr, a);
    CountLast(t, IsCreatePull);
    CountLast(t, IsEditPull);
    CountLast(t, IsBranchCreation);
    CountLast(t, IsClose);
  }

  /** Every push of the update path forces the branch onto itself. */
  lemma UpdatePathPushes(cfg: Config, ref: string, version: string, body: string, pr: PullRequest,
                         a: PushAnswers)
    ensures var t := UpdatePath(cfg, ref, version, body, pr, a).effects;
            var name := RcBranchName(version, ref);
            forall e :: e in t && e.Push? ==> e == Push(name + ":" + name, true)
  {
    var name := RcBranchName(version, ref);
    var q := BumpRequest(version, name, true, true, true);
    var b := BumpVersion(cfg, q, a.bump).effects;
    BumpEffectMembers(cfg, q, a.bump);
    var t := UpdatePath(cfg, ref, version, body, pr, a).effects;
    assert forall e :: e in t ==> e in b || e.ResetHard? || e.EditPull?;
  }

  /** The create path runs the non-forced bump on the RC branch after the
      branch was created (when it was missing) and before the pull request
      is opened, and commits and pushes once exactly when that bump
      succeeded on a dirty tree. */
  lemma CreatePathBumps(cfg: Config, ref: string, version: string, body: string, a: PushAnswers)
    ensures var r := CreatePath(cfg, ref, version, body, a);
            var name := RcBranchName(version, ref);
            && (r.result.Ok? ==> BumpRuns(r.effects, name, version, IsBranchCreation, |r.effects| - 1))
            && (r.result.Err? ==> BumpRuns(r.effects, name, version, IsBranchCreation, |r.effects|))
            && Count(r.effects, IsCommit) == (if r.result.Ok? && a.bump.dirty then 1 else 0)
            && Count(r.effects, IsPush) == Count(r.effects, IsCommit)
  {
    var name := RcBranchName(version, ref);
    var q := BumpRequest(version, name, true, true, false);
    var up := UpsertBranch(a.branches, name, ref).effects;
    var b := BumpVersion(cfg, q, a.bump);
    var post := if b.result.Ok? then [CreatePull(ref, name, RcTitle(version, ref), body)] else [];
    assert CreatePath(cfg, ref, version, body, a).effects == up + b.effects + post;
    BumpWithin(cfg, q, a.bump, up, post, IsBranchCreation);
  }

  /** The update path runs the forced bump on the RC branch after the reset
      and before the pull request is edited, and commits and pushes once
      exactly when that bump succeeded on a dirty tree. */
  lemma UpdatePathBumps(cfg: Config, ref: string, version: string, body: string, pr: PullRequest,
                        a: PushAnswers)
    ensures var r := UpdatePath(cfg, ref, version, body, pr, a);
            var name := RcBranchName(version, ref);
            && r.effects[0] == ResetHard(pr.headSha)
            && (r.result.Ok? ==> BumpRuns(r.effects, name, version, IsReset, |r.effects| - 1))
            && (r.result.Err? ==> BumpRuns(r.effects, name, version, IsReset, |r.effects|))
            && Count(r.effects, IsCommit) == (if r.result.Ok? && a.bump.dirty then 1 else 0)
            && Count(r.effects, IsPush) == Count(r.effects, IsCommit)
  {
    var name := RcBranchName(version, ref);
    var q := BumpRequest(version, name, true, true, true);
    var b := BumpVersion(cfg, q, a.bump);
    var post := if b.result.Ok? then [EditPull(pr.number, RcTitle(version, ref), body)] else [];
    assert UpdatePath(cfg, ref, version, body, pr, a).effects == [ResetHard(pr.headSha)] + b.effects + post;
    BumpWithin(cfg, q, a.bump, [ResetHard(pr.headSha)], post, IsReset);
  }

  /** A successful path commits and pushes once exactly when the tree was
      dirty. */
  lemma PathCommits(cfg: Config, ref: string, version: string, d: Decision, a: PushAnswers)
    requires PushPath(cfg, ref, version, d, a).result.Ok?
    ensures var t := PushPath(cfg, ref, version, d, a).effects;
            && Count(t, IsCommit) == (if a.bump.dirty then 1 else 0)
            && Count(t, IsPush) == Count(t, IsCommit)
  {
    var body := PushBody(version, ref, a);
    match d.keep {
      case None => CreatePathBumps(cfg, ref, version, body, a);
      case Some(pr) => UpdatePathBumps(cfg, ref, version, body, pr, a);
    }
  }

  /** A successful run commits the bump and pushes it once exactly when the
      tree was dirty, and otherwise neither commits nor pushes. */
  lemma PushRunCommits(cfg: Config, ref: string, a: PushAnswers)
    requires OnPush(cfg, ref, a).result.Ok?
    ensures var t := OnPush(cfg, ref, a).effects;
            && Count(t, IsCommit) == (if a.bump.dirty then 1 else 0)
            && Count(t, IsPush) == Count(t, IsCommit)
  {
    PushOkTools(cfg, ref, a);
    var v := Trim(a.bumped.stdout);
    var d := Decide(a.pulls, ref, v);
    OnPushTrace(cfg, ref, a);
    PathCommits(cfg, ref, v, d, a);
    PreludeMembers(cfg, d);
    CountsAfter(Prelude(cfg, d), PushPath(cfg, ref, v, d, a).effects, OnPush(cfg, ref, a).effects);
  }

  /** A run that succeeded got past both tool runs. */
  lemma PushOkTools(cfg: Config, ref: string, a: PushAnswers)
    requires OnPush(cfg, ref, a).result.Ok?
    ensures a.bumped.code == 0 && a.diff.code == 0
  {
  }

  /** The prelude as a set of effects: nothing in it opens, edits or closes
      a pull request other than the stale close, and nothing in it touches
      branches or the remote. */
  lemma PreludeMembers(cfg: Config, d: Decision)
    ensures forall e :: e in Prelude(cfg, d) ==>
              && (e.ClosePull? ==> d.close == Some(e.number))
              && !e.CreatePull? && !e.EditPull? && !IsBranchCreation(e) && !e.ResetHard?
              && !e.Checkout? && !e.Commit? && !e.Push?
  {
    PreludeFacts(cfg, d);
    forall e | e in Prelude(cfg, d)
      ensures && (e.ClosePull? ==> d.close == Some(e.number))
              && !e.CreatePull? && !e.EditPull? && !IsBranchCreation(e) && !e.ResetHard?
              && !e.Checkout? && !e.Commit? && !e.Push?
    {
      var i :| 0 <= i < |Prelude(cfg, d)| && Prelude(cfg, d)[i] == e;
    }
  }

  /** A successful run with no kept pull request ends by opening exactly one
      pull request from `rc/<version>-<ref>` into the pushed branch, titled
      with the version and the branch and carrying the rewritten body; it
      edits and resets nothing, creates the branch only when it was not a
      local branch yet, and never force-pushes. */
  lemma PushCreateRun(cfg: Config, ref: string, a: PushAnswers)
    requires OnPush(cfg, ref, a).result.Ok?
    requires Decide(a.pulls, ref, Trim(a.bumped.stdout)).keep.None?
    ensures var t := OnPush(cfg, ref, a).effects;
            var v := Trim(a.bumped.stdout);
            var name := RcBranchName(v, ref);
            && t[|t| - 1] == CreatePull(ref, name, RcTitle(v, ref), PushBody(v, ref, a))
            && Count(t, IsCreatePull) == 1
            && Count(t, IsEditPull) == 0
            && Count(t, IsReset) == 0
            && (CheckoutNewBranch(ref, name) in t <==> name !in a.branches)
            && (PushUpstream(name) in t <==> name !in a.branches)
            && (forall e :: e in t && e.Push? ==> e == Push(name + ":" + name, false))
  {
    PushOkTools(cfg, ref, a);
    var v := Trim(a.bumped.stdout);
    var d := Decide(a.pulls, ref, v);
    var body := PushBody(v, ref, a);
    var path := CreatePath(cfg, ref, v, body, a);
    OnPushTrace(cfg, ref, a);
    assert OnPush(cfg, ref, a).effects == Prelude(cfg, d) + path.effects;
    CreatePathCounts(cfg, ref, v, body, a);
    CreatePathBranches(cfg, ref, v, body, a);
    PreludeFacts(cfg, d);
    PreludeMembers(cfg, d);
    CountAppend(Prelude(cfg, d), path.effects, IsCreatePull);
    CountAppend(Prelude(cfg, d), path.effects, IsEditPull);
    CountAppend(Prelude(cfg, d), path.effects, IsReset);
  }

  /** A successful run that kept a pull request resets to that pull
      request's head, force-pushes the bump onto its branch and ends by
      editing that same pull request; it opens no pull request, creates no
      branch and closes nothing. */
  lemma PushUpdateRun(cfg: Config, ref: string, a: PushAnswers)
    requires OnPush(cfg, ref, a).result.Ok?
    requires Decide(a.pulls, ref, Trim(a.bumped.stdout)).keep.Some?
    ensures var t := OnPush(cfg, ref, a).effects;
            var v := Trim(a.bumped.stdout);
            var name := RcBranchName(v, ref);
            var pr := Decide(a.pulls, ref, v).keep.value;
            && pr in a.pulls && pr.headRef == name
            && t[|t| - 1] == EditPull(pr.number, RcTitle(v, ref), PushBody(v, ref, a))
            && ResetHard(pr.headSha) in t
            && Count(t, IsEditPull) == 1
            && Count(t, IsCreatePull) == 0
            && Count(t, IsBranchCreation) == 0
            && Count(t, IsClose) == 0
            && (forall e :: e in t && e.Push? ==> e == Push(name + ":" + name, true))
  {
    PushOkTools(cfg, ref, a);
    var v := Trim(a.bumped.stdout);
    var d := Decide(a.pulls, ref, v);
    var pr := d.keep.value;
    var body := PushBody(v, ref, a);
    var path := UpdatePath(cfg, ref, v, body, pr, a);
    OnPushTrace(cfg, ref, a);
    assert OnPush(cfg, ref, a).effects == Prelude(cfg, d) + path.effects;
    UpdatePathShape(cfg, ref, v, body, pr, a);
    UpdatePathPushes(cfg, ref, v, body, pr, a);
    PreludeFacts(cfg, d);
    PreludeMembers(cfg, d);
    assert path.effects[0] in path.effects;
    CountAppend(Prelude(cfg, d), path.effects, IsCreatePull);
    CountAppend(Prelude(cfg, d), path.effects, IsEditPull);
    CountAppend(Prelude(cfg, d), path.effects, IsBranchCreation);
    CountAppend(Prelude(cfg, d), path.effects, IsClose);
  }

  lemma PathPushFollowsCommit(cfg: Config, ref: string, version: string, d: Decision, a: PushAnswers)
    ensures PushFollowsCommit(PushPath(cfg, ref, version, d, a).effects)
  {
    var name := RcBranchName(version, ref);
    var body := PushBody(version, ref, a);
    match d.keep {
      case None =>
        var q := BumpRequest(version, name, true, true, false);
        var up := UpsertBranch(a.branches, name, ref).effects;
        var b := BumpVersion(cfg, q, a.bump).effects;
        var last := CreatePull(ref, name, RcTitle(version, ref), body);
        BumpPushDiscipline(cfg, q, a.bump);
        assert PushFollowsCommit(up);
        assert PushFollowsCommit([last]);
        PushFollowsCommitAppend(up, b);
        PushFollowsCommitAppend(up + b, [last]);
        var t := CreatePath(cfg, ref, version, body, a).effects;
        assert t == up + b + [last] || t == up + b;
      case Some(pr) =>
        var q := BumpRequest(version, name, true, true, true);
        var b := BumpVersion(cfg, q, a.bump).effects;
        var last := EditPull(pr.number, RcTitle(version, ref), body);
        BumpPushDiscipline(cfg, q, a.bump);
        assert PushFollowsCommit([ResetHard(pr.headSha)]);
        assert PushFollowsCommit([last]);
        PushFollowsCommitAppend([ResetHard(pr.headSha)], b);
        PushFollowsCommitAppend([ResetHard(pr.headSha)] + b, [last]);
        var t := UpdatePath(cfg, ref, version, body, pr, a).effects;
        assert t == [ResetHard(pr.headSha)] + b + [last] || t == [ResetHard(pr.headSha)] + b;
    }
  }

  /** Over a whole run, whichever way it ends, every commit is immediately
      followed by a push and every push immediately follows a commit: the
      handler never leaves a bump commit unpushed. */
  lemma PushRunPushFollowsCommit(cfg: Config, ref: string, a: PushAnswers)
    ensures PushFollowsCommit(OnPush(cfg, ref, a).effects)
  {
    if a.bumped.code == 0 {
      var v := Trim(a.bumped.stdout);
      var d := Decide(a.pulls, ref, v);
      PreludeFacts(cfg, d);
      assert PushFollowsCommit(Prelude(cfg, d));
      if a.diff.code == 0 {
        OnPushTrace(cfg, ref, a);
        PathPushFollowsCommit(cfg, ref, v, d, a);
        PushFollowsCommitAppend(Prelude(cfg, d), PushPath(cfg, ref, v, d, a).effects);
      }
    } else {
      assert OnPush(cfg, ref, a).effects == [RunProcess(BumpedVersionArgs)];
    }
  }
}
