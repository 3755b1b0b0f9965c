/** The local-git half of the orchestrator (services/git.py): making sure a
    release-candidate branch exists, and bumping the project version on a
    branch with an optional commit and push. */
module GitService {
  import opened Effects
  import opened Cliff

  /** The settings the git service reads: where the changelog lives and who
      authors the bump commits. */
  datatype Config = Config(changelogPath: string, bumpActor: Actor)

  /** What `upsert_branch` hands back, the effects it made and the local
      branches afterwards. */
  datatype Upsert = Upsert(branch: string, effects: seq<Effect>, branches: set<string>)

  /** `upsert_branch`: when `name` is not a local branch, create it from
      `base` and push it with upstream tracking; otherwise do nothing. The
      branch name is returned either way. */
  function UpsertBranch(branches: set<string>, name: string, base: string): (u: Upsert)
    ensures u.branch == name
    ensures u.branches == branches + {name}
    ensures name in branches <==> u.effects == []
    ensures name !in branches ==> u.effects == [CheckoutNewBranch(base, name), PushUpstream(name)]
  {
    if name in branches then Upsert(name, [], branches)
    else Upsert(name, [CheckoutNewBranch(base, name), PushUpstream(name)], branches + {name})
  }

  /** A second upsert of the same branch makes no effect and changes
      nothing. */
  lemma UpsertIdempotent(branches: set<string>, name: string, base: string, base': string)
    ensures var u := UpsertBranch(branches, name, base);
            var u' := UpsertBranch(u.branches, name, base');
            u'.effects == [] && u'.branches == u.branches && u'.branch == u.branch
  {
  }

  /** The arguments of `bump_version`. */
  datatype BumpRequest = BumpRequest(version: string, target: string, doCommit: bool,
                                     commitChangelog: bool, force: bool)

  /** What the outside world answers during `bump_version`: the `uv version`
      run, whether the changelog file exists, the git-cliff run that writes
      it, and `repo.is_dirty()` once both have run. */
  datatype BumpAnswers = BumpAnswers(uv: ProcessResult, changelogExists: bool,
                                     cliff: ProcessResult, dirty: bool)

  const Manifest := "pyproject.toml"

  function BumpMessage(version: string): string {
    "chore(release): Bumped version to " + version
  }

  /** The effects `bump_version` may make at all. */
  predicate IsBumpEffect(e: Effect) {
    e.Checkout? || e.RunProcess? || e.Add? || e.Commit? || e.Push?
  }

  /** Stage the manifest and the changelog, commit as the bump actor, push
      the target branch to itself on `origin`. */
  function CommitAndPush(cfg: Config, q: BumpRequest): seq<Effect> {
    [ Add([Manifest, cfg.changelogPath]),
      Commit(BumpMessage(q.version), cfg.bumpActor, cfg.bumpActor),
      Push(q.target + ":" + q.target, q.force) ]
  }

  /** `bump_version`: check out the target, rewrite the manifest with
      `uv version`, and, when asked to commit, regenerate the changelog (if
      asked to) and commit and push only if the working tree is dirty. Tool
      failures end the run with the tool's error. */
  function BumpVersion(cfg: Config, q: BumpRequest, a: BumpAnswers): (r: Run<()>)
    ensures |r.effects| >= 2
    ensures r.effects[0] == Checkout(q.target) && r.effects[1] == RunProcess(UvVersionArgs(q.version))
    ensures r.result.Ok? <==> a.uv.code == 0 && !(q.doCommit && q.commitChangelog && a.cliff.code != 0)
    ensures forall i :: 0 <= i < |r.effects| ==> IsBumpEffect(r.effects[i])
  {
    var head := [Checkout(q.target), RunProcess(UvVersionArgs(q.version))];
    if a.uv.code != 0 then
      Run(head, Err(ToolFailed(UvVersionArgs(q.version), a.uv.code, a.uv.stdout, a.uv.stderr)))
    else if !q.doCommit then
      Run(head, Ok(()))
    else
      var generated := head + Regenerate(cfg, q, a);
      if q.commitChangelog && a.cliff.code != 0 then
        Run(generated, Err(ToolFailed(ChangelogFileArgs(a.changelogExists, cfg.changelogPath),
                                      a.cliff.code, a.cliff.stdout, a.cliff.stderr)))
      else if !a.dirty then
        Run(generated, Ok(()))
      else
        Run(generated + CommitAndPush(cfg, q), Ok(()))
  }

  /** The changelog regeneration step of a committing bump. */
  function Regenerate(cfg: Config, q: BumpRequest, a: BumpAnswers): seq<Effect> {
    if q.commitChangelog then [RunProcess(ChangelogFileArgs(a.changelogExists, cfg.changelogPath))] else []
  }

  /** The trace of a bump is the checkout and manifest rewrite, then (when
      committing) the regeneration, then (when committing a dirty tree and
      the tools succeeded) the commit-and-push block. */
  lemma BumpTrace(cfg: Config, q: BumpRequest, a: BumpAnswers)
    ensures var r := BumpVersion(cfg, q, a);
            var head := [Checkout(q.target), RunProcess(UvVersionArgs(q.version))];
            r.effects == head + (if a.uv.code == 0 && q.doCommit then Regenerate(cfg, q, a) else [])
                         + (if r.result.Ok? && q.doCommit && a.dirty then CommitAndPush(cfg, q) else [])
  {
  }

  /** The changelog is regenerated exactly when the bump commits with the
      changelog (and the manifest rewrite succeeded). */
  lemma BumpRegeneratesChangelog(cfg: Config, q: BumpRequest, a: BumpAnswers)
    ensures RunProcess(ChangelogFileArgs(a.changelogExists, cfg.changelogPath)) in BumpVersion(cfg, q, a).effects
            <==> a.uv.code == 0 && q.doCommit && q.commitChangelog
  {
    BumpTrace(cfg, q, a);
    assert UvVersionArgs(q.version)[0] != ChangelogFileArgs(a.changelogExists, cfg.changelogPath)[0];
  }

  /** A commit happens exactly when committing was asked for, the tools
      succeeded and the tree was dirty; a clean tree gives no commit and no
      push. */
  lemma BumpCommitsOnlyDirtyTree(cfg: Config, q: BumpRequest, a: BumpAnswers)
    ensures var r := BumpVersion(cfg, q, a);
            && Count(r.effects, IsCommit) == (if r.result.Ok? && q.doCommit && a.dirty then 1 else 0)
            && Count(r.effects, IsPush) == Count(r.effects, IsCommit)
  {
    var r := BumpVersion(cfg, q, a);
    var head := [Checkout(q.target), RunProcess(UvVersionArgs(q.version))];
    var mid := if a.uv.code == 0 && q.doCommit then Regenerate(cfg, q, a) else [];
    var tail := if r.result.Ok? && q.doCommit && a.dirty then CommitAndPush(cfg, q) else [];
    BumpTrace(cfg, q, a);
    CountAppend(head + mid, tail, IsCommit);
    CountAppend(head, mid, IsCommit);
    CountAppend(head + mid, tail, IsPush);
    CountAppend(head, mid, IsPush);
    assert Count(head, IsCommit) == 0 && Count(mid, IsCommit) == 0;
    assert Count(head, IsPush) == 0 && Count(mid, IsPush) == 0;
    CommitAndPushCounts(cfg, q);
  }

  /** What a bump commits and pushes: it stages exactly the manifest and the
      changelog, commits with the fixed message as the bump actor for both
      author and committer, and every commit is immediately followed by a
      push of the target onto itself with the requested force flag (and
      every push follows a commit). */
  lemma BumpCommitShape(cfg: Config, q: BumpRequest, a: BumpAnswers)
    ensures var t := BumpVersion(cfg, q, a).effects;
            && PushFollowsCommit(t)
            && (forall i :: 0 <= i < |t| && t[i].Add? ==> t[i].paths == [Manifest, cfg.changelogPath])
            && (forall i :: 0 <= i < |t| && t[i].Commit? ==>
                  && t[i].message == BumpMessage(q.version)
                  && t[i].author == cfg.bumpActor
                  && t[i].committer == cfg.bumpActor)
            && (forall i :: 0 <= i < |t| && t[i].Push? ==>
                  t[i].refspec == q.target + ":" + q.target && t[i].force == q.force)
  {
    var t := BumpVersion(cfg, q, a).effects;
    BumpPushDiscipline(cfg, q, a);
    BumpCommitEffects(cfg, q, a);
    assert forall i :: 0 <= i < |t| ==> t[i] in t;
  }

  lemma BumpPushDiscipline(cfg: Config, q: BumpRequest, a: BumpAnswers)
    ensures PushFollowsCommit(BumpVersion(cfg, q, a).effects)
  {
    var r := BumpVersion(cfg, q, a);
    var head := [Checkout(q.target), RunProcess(UvVersionArgs(q.version))];
    var mid := if a.uv.code == 0 && q.doCommit then Regenerate(cfg, q, a) else [];
    var tail := if r.result.Ok? && q.doCommit && a.dirty then CommitAndPush(cfg, q) else [];
    BumpTrace(cfg, q, a);
    assert PushFollowsCommit(head + mid);
    assert PushFollowsCommit(tail);
    PushFollowsCommitAppend(head + mid, tail);
  }

  lemma BumpCommitEffects(cfg: Config, q: BumpRequest, a: BumpAnswers)
    ensures forall e: Effect :: e in BumpVersion(cfg, q, a).effects && (e.Add? || e.Commit? || e.Push?) ==>
              e in CommitAndPush(cfg, q)
  {
    var r := BumpVersion(cfg, q, a);
    var head := [Checkout(q.target), RunProcess(UvVersionArgs(q.version))];
    var mid := if a.uv.code == 0 && q.doCommit then Regenerate(cfg, q, a) else [];
    var tail := if r.result.Ok? && q.doCommit && a.dirty then CommitAndPush(cfg, q) else [];
    BumpTrace(cfg, q, a);
    assert forall e: Effect :: e in head + mid ==> e.Checkout? || e.RunProcess?;
  }

  /** Every effect of a bump is one of the bump's kinds, and every push is
      the target onto itself with the requested force flag. */
  lemma BumpEffectMembers(cfg: Config, q: BumpRequest, a: BumpAnswers)
    ensures forall e: Effect :: e in BumpVersion(cfg, q, a).effects ==>
              IsBumpEffect(e) && (e.Push? ==> e == Push(q.target + ":" + q.target, q.force))
  {
    var t := BumpVersion(cfg, q, a).effects;
    BumpCommitEffects(cfg, q, a);
    forall e: Effect | e in t
      ensures IsBumpEffect(e)
    {
      var i :| 0 <= i < |t| && t[i] == e;
    }
  }

  lemma CommitAndPushCounts(cfg: Config, q: BumpRequest)
    ensures Count(CommitAndPush(cfg, q), IsCommit) == 1
    ensures Count(CommitAndPush(cfg, q), IsPush) == 1
  {
    var t := CommitAndPush(cfg, q);
    assert t == [t[0]] + [t[1]] + [t[2]];
    CountAppend([t[0]] + [t[1]], [t[2]], IsCommit);
    CountAppend([t[0]], [t[1]], IsCommit);
    CountAppend([t[0]] + [t[1]], [t[2]], IsPush);
    CountAppend([t[0]], [t[1]], IsPush);
    CountSingle(t[0], IsCommit);
    CountSingle(t[1], IsCommit);
    CountSingle(t[2], IsCommit);
    CountSingle(t[0], IsPush);
    CountSingle(t[1], IsPush);
    CountSingle(t[2], IsPush);
  }

  // ---------------------------------------------------------------------
  // A bump inside a longer trace

  /** The bump of branch `name` to `version` runs within `t`: the first
      checkout of the branch is immediately followed by the `uv version`
      run; no effect from that checkout on is one that `before` selects; and
      every commit and push of `t` comes after that run and before position
      `end`. */
  predicate BumpRuns(t: seq<Effect>, name: string, version: string, before: Effect -> bool, end: int) {
    var i := IndexOf(t, Checkout(name));
    && i + 1 < end <= |t|
    && t[i + 1] == RunProcess(UvVersionArgs(version))
    && (forall x :: x in t[i..] ==> !before(x))
    && (forall x :: x in t[..i + 2] ==> !x.Commit? && !x.Push?)
    && (forall x :: x in t[end..] ==> !x.Commit? && !x.Push?)
  }

  /** A bump placed between effects that neither commit nor push runs as
      `BumpRuns` says, and the whole trace commits and pushes exactly what
      the bump does: once when it succeeded committing a dirty tree. */
  lemma BumpWithin(cfg: Config, q: BumpRequest, a: BumpAnswers, pre: seq<Effect>, post: seq<Effect>,
                   before: Effect -> bool)
    requires forall e :: e in pre ==> !e.Checkout? && !e.Commit? && !e.Push?
    requires forall e :: e in post ==> !before(e) && !e.Commit? && !e.Push?
    requires forall e :: IsBumpEffect(e) ==> !before(e)
    ensures BumpRuns(pre + BumpVersion(cfg, q, a).effects + post, q.target, q.version, before,
                     |pre| + |BumpVersion(cfg, q, a).effects|)
    ensures Count(pre + BumpVersion(cfg, q, a).effects + post, IsCommit)
            == (if BumpVersion(cfg, q, a).result.Ok? && q.doCommit && a.dirty then 1 else 0)
    ensures Count(pre + BumpVersion(cfg, q, a).effects + post, IsPush)
            == Count(pre + BumpVersion(cfg, q, a).effects + post, IsCommit)
  {
    var e := BumpVersion(cfg, q, a).effects;
    BumpEffectMembers(cfg, q, a);
    BumpOrderWithin(pre, e, post, q.target, q.version, before);
    BumpCommitsOnlyDirtyTree(cfg, q, a);
    CountsWithin(pre, e, post);
  }

  /** The ordering half of `BumpWithin`, for any bump-shaped middle part. */
  lemma BumpOrderWithin(pre: seq<Effect>, e: seq<Effect>, post: seq<Effect>, name: string, version: string,
                        before: Effect -> bool)
    requires |e| >= 2 && e[0] == Checkout(name) && e[1] == RunProcess(UvVersionArgs(version))
    requires forall x :: x in pre ==> !x.Checkout? && !x.Commit? && !x.Push?
    requires forall x :: x in e ==> !before(x)
    requires forall x :: x in post ==> !before(x) && !x.Commit? && !x.Push?
    ensures BumpRuns(pre + e + post, name, version, before, |pre| + |e|)
  {
    var t := pre + e + post;
    var i := |pre|;
    assert (e + post)[0] == Checkout(name);
    IndexOfAppend(pre, e + post, Checkout(name));
    assert t == pre + (e + post);
    assert IndexOf(t, Checkout(name)) == i;
    assert t[i..] == e + post;
    assert t[..i + 2] == pre + [Checkout(name), RunProcess(UvVersionArgs(version))];
    assert t[i + |e|..] == post;
    assert t[i + 1] == e[1];
  }

  /** Effects put in front that neither commit nor push leave the commit
      and push counts as they were. */
  lemma CountsAfter(p: seq<Effect>, t: seq<Effect>, u: seq<Effect>)
    requires u == p + t
    requires forall x :: x in p ==> !x.Commit? && !x.Push?
    ensures Count(u, IsCommit) == Count(t, IsCommit) && Count(u, IsPush) == Count(t, IsPush)
  {
    CountsWithin(p, t, []);
    assert p + t + [] == u;
  }

  /** Commits and pushes of a trace whose outer parts make neither. */
  lemma CountsWithin(pre: seq<Effect>, e: seq<Effect>, post: seq<Effect>)
    requires forall x :: x in pre ==> !x.Commit? && !x.Push?
    requires forall x :: x in post ==> !x.Commit? && !x.Push?
    ensures Count(pre + e + post, IsCommit) == Count(e, IsCommit)
    ensures Count(pre + e + post, IsPush) == Count(e, IsPush)
  {
    assert forall k :: 0 <= k < |pre| ==> pre[k] in pre;
    assert forall k :: 0 <= k < |post| ==> post[k] in post;
    CountAppend(pre + e, post, IsCommit);
    CountAppend(pre, e, IsCommit);
    CountAppend(pre + e, post, IsPush);
    CountAppend(pre, e, IsPush);
  }
}
