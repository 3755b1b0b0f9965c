/** `on_pull_request_merged` (events/pull_request.py): make sure a release
    tagged with the version exists, creating the tag and the release from
    the merge commit when the platform reports none.

    The release lookup's answer (a release, or the status of the error the
    platform raised) and the git-cliff run are inputs. */
module MergeHandler {
  import opened Text
  import opened Effects
  import opened Cliff

  /** A release, with the fields the handler sets. */
  datatype Release = Release(tag: string, name: string, message: string, target: string)

  /** What `repo.get_release(version)` does: answer a release, or raise an
      error with an HTTP status. */
  datatype Lookup = Found(release: Release) | Failed(status: int)

  const NotFound := 404

  /** The release the handler creates for `version` at `sha` with `body`. */
  function NewRelease(version: string, sha: string, body: string): Release {
    Release(version, version, body, sha)
  }

  /** `on_pull_request_merged`: an existing release is returned untouched; a
      404 leads to a changelog diff and a new lightweight-commit tag and
      release named after the version; any other error status ends the run. */
  function OnPullRequestMerged(version: string, sha: string, changelogPath: string,
                               lookup: Lookup, diff: ProcessResult): (r: Run<Release>)
    ensures |r.effects| >= 1 && r.effects[0] == GetRelease(version)
    ensures lookup.Found? ==> r.effects == [GetRelease(version)] && r.result == Ok(lookup.release)
    ensures lookup.Failed? && lookup.status != NotFound ==>
              r.effects == [GetRelease(version)] && r.result == Err(ApiFailed(lookup.status))
    ensures lookup.Failed? && lookup.status == NotFound ==>
              (r.result.Ok? <==> diff.code == 0)
              && |r.effects| >= 2 && r.effects[1] == RunProcess(DiffArgs(BodyOptions, changelogPath))
    ensures r.result.Ok? && lookup.Failed? ==>
              r.result.value == NewRelease(version, sha, Trim(diff.stdout))
              && r.effects[|r.effects| - 1]
                 == CreateTagAndRelease(version, version, version, Trim(diff.stdout), sha, "commit")
  {
    match lookup
    case Found(existing) => Run([GetRelease(version)], Ok(existing))
    case Failed(status) =>
      if status != NotFound then Run([GetRelease(version)], Err(ApiFailed(status)))
      else
        var body := RunTool(DiffArgs(BodyOptions, changelogPath), diff);
        if body.result.Err? then Run([GetRelease(version)] + body.effects, Err(body.result.error))
        else
          var msg := body.result.value;
          Run([GetRelease(version)] + body.effects
              + [CreateTagAndRelease(version, version, version, msg, sha, "commit")],
              Ok(NewRelease(version, sha, msg)))
  }

  /** A run creates at most one release, and creates one exactly when the
      lookup reported 404 and the changelog diff succeeded; no other remote
      change is ever made. */
  lemma MergeCreatesOnlyWhenMissing(version: string, sha: string, changelogPath: string,
                                    lookup: Lookup, diff: ProcessResult)
    ensures var r := OnPullRequestMerged(version, sha, changelogPath, lookup, diff);
            && Count(r.effects, IsReleaseCreation)
               == (if lookup == Failed(NotFound) && diff.code == 0 then 1 else 0)
            && forall e :: e in r.effects && IsRemoteChange(e) ==> e.CreateTagAndRelease?
  {
    var r := OnPullRequestMerged(version, sha, changelogPath, lookup, diff);
    var q := [GetRelease(version), RunProcess(DiffArgs(BodyOptions, changelogPath))];
    if lookup == Failed(NotFound) && diff.code == 0 {
      var last := CreateTagAndRelease(version, version, version, Trim(diff.stdout), sha, "commit");
      assert r.effects == q + [last];
      CountAppend(q, [last], IsReleaseCreation);
      CountSingle(last, IsReleaseCreation);
    } else {
      assert r.effects == [GetRelease(version)] || r.effects == q;
    }
  }

  // ---------------------------------------------------------------------
  // The platform's releases, for idempotence

  /** The lookup a platform holding `releases` answers. */
  function LookupIn(releases: map<string, Release>, tag: string): (l: Lookup)
    ensures l.Found? <==> tag in releases
    ensures l.Found? ==> l.release == releases[tag]
    ensures l.Failed? ==> l.status == NotFound
  {
    if tag in releases then Found(releases[tag]) else Failed(NotFound)
  }

  /** The platform's releases after a trace: creating a tag and release
      records the release under its tag. */
  function ApplyReleases(releases: map<string, Release>, t: seq<Effect>): map<string, Release>
    decreases |t|
  {
    if |t| == 0 then releases
    else
      var next := match t[0]
        case CreateTagAndRelease(tag, _, name, message, target, _) =>
          releases[tag := Release(tag, name, message, target)]
        case _ => releases;
      ApplyReleases(next, t[1..])
  }

  lemma {:induction false} ApplyReleasesInert(releases: map<string, Release>, t: seq<Effect>)
    requires forall e :: e in t ==> !e.CreateTagAndRelease?
    ensures ApplyReleases(releases, t) == releases
    decreases |t|
  {
    if |t| != 0 {
      assert t[0] in t;
      assert forall e :: e in t[1..] ==> e in t;
      ApplyReleasesInert(releases, t[1..]);
    }
  }

  /** After a successful run against the platform's releases, the platform
      holds the release the run returned, under the version's tag. */
  lemma MergeRecordsRelease(version: string, sha: string, changelogPath: string,
                            releases: map<string, Release>, diff: ProcessResult)
    requires OnPullRequestMerged(version, sha, changelogPath, LookupIn(releases, version), diff).result.Ok?
    ensures var r := OnPullRequestMerged(version, sha, changelogPath, LookupIn(releases, version), diff);
            var after := ApplyReleases(releases, r.effects);
            version in after && after[version] == r.result.value
            && forall tag :: tag in releases ==> tag in after
  {
    var r := OnPullRequestMerged(version, sha, changelogPath, LookupIn(releases, version), diff);
    if version in releases {
      ApplyReleasesInert(releases, r.effects);
    } else {
      var q := [GetRelease(version), RunProcess(DiffArgs(BodyOptions, changelogPath))];
      var msg := Trim(diff.stdout);
      assert r.effects == q + [CreateTagAndRelease(version, version, version, msg, sha, "commit")];
      ApplyReleasesCreate(releases, q, version, version, version, msg, sha, "commit");
    }
  }

  /** Effects that create nothing, followed by one creation, record exactly
      that release. */
  lemma {:induction false} ApplyReleasesCreate(releases: map<string, Release>, q: seq<Effect>,
                                               tag: string, tagMessage: string, name: string,
                                               message: string, target: string, objectType: string)
    requires forall e :: e in q ==> !e.CreateTagAndRelease?
    ensures ApplyReleases(releases, q + [CreateTagAndRelease(tag, tagMessage, name, message, target, objectType)])
            == releases[tag := Release(tag, name, message, target)]
    decreases |q|
  {
    var last := CreateTagAndRelease(tag, tagMessage, name, message, target, objectType);
    if |q| == 0 {
      assert q + [last] == [last];
      assert [last][1..] == [];
    } else {
      assert q[0] in q;
      assert (q + [last])[1..] == q[1..] + [last];
      assert forall e :: e in q[1..] ==> e in q;
      ApplyReleasesCreate(releases, q[1..], tag, tagMessage, name, message, target, objectType);
    }
  }

  /** Idempotence: once a run succeeded, running the handler again for the
      same version, whatever commit and diff it then sees, changes nothing on
      the platform and returns the same release. */
  lemma MergeIdempotent(version: string, sha: string, sha': string, changelogPath: string,
                        releases: map<string, Release>, diff: ProcessResult, diff': ProcessResult)
    requires OnPullRequestMerged(version, sha, changelogPath, LookupIn(releases, version), diff).result.Ok?
    ensures var r := OnPullRequestMerged(version, sha, changelogPath, LookupIn(releases, version), diff);
            var after := ApplyReleases(releases, r.effects);
            var r' := OnPullRequestMerged(version, sha', changelogPath, LookupIn(after, version), diff');
            && r'.result == r.result
            && NoRemoteChange(r'.effects)
            && ApplyReleases(after, r'.effects) == after
  {
    var r := OnPullRequestMerged(version, sha, changelogPath, LookupIn(releases, version), diff);
    var after := ApplyReleases(releases, r.effects);
    MergeRecordsRelease(version, sha, changelogPath, releases, diff);
    var r' := OnPullRequestMerged(version, sha', changelogPath, LookupIn(after, version), diff');
    assert r'.effects == [GetRelease(version)];
    ApplyReleasesInert(after, r'.effects);
  }

  /** The release body and the pull request body come from the same
      git-cliff invocation: bumped, unreleased, header stripped, printed. */
  lemma MergeBodyArgs(version: string, sha: string, changelogPath: string, diff: ProcessResult)
    ensures var args := OnPullRequestMerged(version, sha, changelogPath, Failed(NotFound), diff).effects[1].args;
            ParseDiffArgs(args, changelogPath) == Some(BodyOptions)
            && "--bump" in args && "--unreleased" in args && "--strip" in args
            && "--prepend" !in args && "--output" !in args
  {
    DiffArgsParse(BodyOptions, changelogPath);
    DiffArgsContents(BodyOptions, changelogPath, "--bump");
    DiffArgsContents(BodyOptions, changelogPath, "--unreleased");
    DiffArgsContents(BodyOptions, changelogPath, "--strip");
    DiffArgsContents(BodyOptions, changelogPath, "--prepend");
    DiffArgsContents(BodyOptions, changelogPath, "--output");
  }
}
