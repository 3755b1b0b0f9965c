# streamlined-releases: the release-candidate lifecycle in Dafny

streamlined-releases is a GitHub Action that drives releases through
release-candidate ("RC") branches. It does two things:

- On a push to a branch `<ref>`, it asks git-cliff for the next version `v`.
  It then keeps exactly one open pull request from `rc/<v>-<ref>` into `<ref>`.
  An RC pull request whose captured version differs from the bumped one is
  closed. The current one gets the version bump committed on its branch and
  its body refreshed from the changelog.
- When an RC branch is merged, it makes sure a tag and release named after
  the version exist.

This project models the decision logic of those two handlers and of the git
and platform services they call. Every subprocess run, git command and
platform call becomes an `Effect`, recorded in a trace in call order. What
the outside world answers is an input: tool exit codes and output, the open
pull requests, the local branches, whether the tree is dirty, and the
release lookup. A handler is then a pure function from its inputs to a
`Run`: the trace plus either a value or the error that ended it.

Modules:

- `Text` (text.dfy): Python's `str.strip()`, with the exact `isspace` set,
  and `str.replace`.
- `Effects` (effects.dfy): effects, results, counting, and the rule that
  every push follows a commit.
- `Cliff` (cliff.dfy): the git-cliff and `uv` command lines, plus a parser
  that inverts the diff command line.
- `RcNaming` (naming.dfy): the `rc/<version>-<ref>` name, the push handler's
  template, and the generic RC pattern.
- `GitService` (git_service.dfy): `upsert_branch` and `bump_version`.
- `GitHubService` (github_service.dfy): pull requests, `create_pull_request`
  and `is_rc_commit`.
- `PushHandler` (push_handler.dfy): `on_push`.
- `RcConvergence` (convergence.dfy): the platform's list of open pull
  requests as a fold over a trace. It proves that a run converges and that a
  rerun opens nothing.
- `BaseFilter` (base_filter.dfy): the finding below, and the corrected
  selection.
- `MergeHandler` (merge_handler.dfy): `on_pull_request_merged`, and a map of
  releases for idempotence.

Three facts about the code shape the model:

- `bump_version` returns nothing. The new version string is not returned.
- `upsert_branch` looks only at local branches (`repo.branches`). A branch
  that exists only on the remote is created again from the base.
- `reset --hard` in the update path (push.py:90) resets whichever branch is
  checked out to the pull request's head. It is recorded as such, and the
  bump that follows checks out the RC branch by name.

Regular expressions are modelled as string predicates:

- `.` matches any character except a newline.
- The pushed branch name is taken to contain no regular-expression
  metacharacter. The code interpolates it unescaped.

## Model

| member | source | states |
|---|---|---|
| Text.Trim | src/streamlined_releases/services/git.py:54 | the stripped output is a contiguous piece of the input, no longer than it, with no leading or trailing whitespace |
| Text.TrimPadding | src/streamlined_releases/services/git.py:103 | stripping removes exactly the whitespace padding around an already stripped string |
| Text.TrimIdempotent | src/streamlined_releases/services/git.py:85 | stripping twice is stripping once |
| Text.ReplaceLength | src/streamlined_releases/events/push.py:56 | each replaced occurrence changes the length by the difference between replacement and pattern, and nothing else changes the length |
| Text.ReplaceAbsent | src/streamlined_releases/events/push.py:56 | a text with no occurrence of the pattern is returned unchanged |
| Text.ReplaceIsJoin | src/streamlined_releases/events/push.py:56 | replacing equals cutting the text at the occurrences the scan finds and gluing the same pieces back with the replacement; there is one piece more than occurrences |
| Text.OccurrencesZero | src/streamlined_releases/events/push.py:56 | the scan finds no occurrence iff the pattern occurs at no position of the text |
| Text.PiecesFree | src/streamlined_releases/events/push.py:56 | no piece between the occurrences the scan cuts at contains the pattern, so every occurrence is replaced |
| Text.SplitJoin | src/streamlined_releases/events/push.py:56 | the text is its pieces glued back with the pattern |
| Text.ReplaceSelf | src/streamlined_releases/events/push.py:56 | replacing a pattern with itself changes nothing |
| Effects.RunTool | src/streamlined_releases/services/git.py:45-60 | a subprocess run with `check=True` records one run; a zero exit yields the stripped stdout, and any other exit raises an error that carries the arguments, the code and both streams |
| Cliff.DiffArgs | src/streamlined_releases/services/git.py:28 | the diff command line always starts with `git-cliff` |
| Cliff.DiffArgsContents | src/streamlined_releases/services/git.py:28-43 | a token is on the diff command line iff it is the program name or belongs to an option that is set |
| Cliff.DiffArgsFlags | src/streamlined_releases/services/git.py:28-43 | the length is 1 plus one per boolean flag plus two per valued option; each flag is present iff its option is set; the short `-o` never appears |
| Cliff.DiffArgsAroundStrip | src/streamlined_releases/services/git.py:28-43 | the list is the leading flags, then the strip pair, then the prepend and output pairs, in that fixed order |
| Cliff.DiffArgsStripValue | src/streamlined_releases/services/git.py:36-37 | wherever `--strip` appears, a strip mode was given and the next token is its value |
| Cliff.DiffArgsParse | src/streamlined_releases/services/git.py:28-43 | every diff command line reads back to the options that built it |
| Cliff.ParseDiffArgsExact | src/streamlined_releases/services/git.py:28-43 | any list that reads back to some options is exactly the command line those options build |
| Cliff.ParseStripValue | src/streamlined_releases/services/git.py:24 | a recognised strip value is the text of its mode |
| Cliff.ChangelogFileArgs | src/streamlined_releases/services/git.py:63-76 | the changelog command is `git-cliff --bump` followed by `-o path` for a new file or `--unreleased --prepend path` for an existing one, never both, and never `--output` |
| Cliff.PrependIsDiffWithPrepend | src/streamlined_releases/services/git.py:72-76 | prepending to an existing changelog is the diff command with bump, unreleased and prepend set |
| RcNaming.MatchTemplate | src/streamlined_releases/events/push.py:22-31 | a match captures a non-empty, newline-free version whose RC name for the ref is the head; no match means no such version exists |
| RcNaming.TemplateRoundTrip | src/streamlined_releases/events/push.py:21-22 | the template for a ref matches the name built for (version, ref) and captures exactly the version |
| RcNaming.RcBranchNameIsRcRef | src/streamlined_releases/services/github.py:43 | every name built from a non-empty version and branch is recognised by the generic RC pattern |
| RcNaming.TemplateMatchIsRcRef | src/streamlined_releases/services/github.py:43 | whatever the push handler's template accepts, the generic pattern accepts too |
| GitService.UpsertBranch | src/streamlined_releases/services/git.py:112-125 | the branch name is returned; a local branch gets no effect; a missing one is checked out from the base and pushed with upstream tracking, and then exists |
| GitService.UpsertIdempotent | src/streamlined_releases/services/git.py:112-125 | a second upsert of the same branch makes no effect and changes nothing |
| GitService.BumpVersion | src/streamlined_releases/services/git.py:137-199 | a bump checks out the target and runs `uv version` first; it fails iff `uv` fails or the changelog tool fails when asked for; it only checks out, runs tools, stages, commits and pushes |
| GitService.BumpTrace | src/streamlined_releases/services/git.py:144-199 | the trace is checkout and `uv`, then the regeneration when committing, then stage-commit-push when the tree is dirty |
| GitService.BumpRegeneratesChangelog | src/streamlined_releases/services/git.py:167-171 | the changelog command runs iff `uv` succeeded and both committing and committing the changelog were asked for |
| GitService.BumpCommitsOnlyDirtyTree | src/streamlined_releases/services/git.py:167-199 | exactly one commit iff the bump succeeded, committing was asked for and the tree was dirty, otherwise none; pushes equal commits |
| GitService.BumpCommitShape | src/streamlined_releases/services/git.py:179-199 | only the manifest and the changelog are staged; the commit has the fixed message with the bump actor as author and committer; every commit is immediately pushed as `target:target` with the requested force, and every push follows a commit |
| GitService.BumpWithin | src/streamlined_releases/services/git.py:144-199 | placed between effects that neither check out, commit nor push, the first checkout of the target is immediately followed by `uv version`; every commit and push of the whole trace comes after that run and before the effects that follow; the trace commits once iff the bump succeeded committing a dirty tree, and pushes as often as it commits |
| GitService.BumpEffectMembers | src/streamlined_releases/services/git.py:195-199 | every push a bump makes is the target onto itself with the requested force |
| GitHubService.CreatePullRequest | src/streamlined_releases/services/github.py:21-32 | one create call carrying the given head, base, title and body unchanged |
| GitHubService.IsRcCommit | src/streamlined_releases/services/github.py:37-50 | true iff some associated pull request is merged and its head is an RC ref |
| GitHubService.HasMergedRcPullOrderFree | src/streamlined_releases/services/github.py:45-50 | the answer does not depend on the order of the pull requests |
| GitHubService.UnmergedPullsIrrelevant | src/streamlined_releases/services/github.py:46 | unmerged pull requests never change the answer, and none at all gives false |
| PushHandler.FirstRcPull | src/streamlined_releases/events/push.py:30-35 | the index found matches the template and no earlier one does; none is found iff none matches |
| PushHandler.Decide | src/streamlined_releases/events/push.py:30-44 | the first match is kept when its captured version is the bumped one and closed otherwise; nothing is both kept and closed; a kept pull request's head is exactly the RC name |
| PushHandler.DecideIgnoresLaterPulls | src/streamlined_releases/events/push.py:30-35 | once a pull request matches, those listed after it do not affect the decision |
| PushHandler.RewriteCompareLinkEffect | src/streamlined_releases/events/push.py:54-56 | the body grows by the name difference for each `...<version>` rewritten, and a body without one is untouched |
| PushHandler.RewriteCompareLinkUnchanged | src/streamlined_releases/events/push.py:54-56 | the body comes back unchanged iff it contains `...<version>` nowhere |
| PushHandler.RewriteCompareLinkPieces | src/streamlined_releases/events/push.py:54-56 | the body and its rewrite are the same pieces, joined by `...<version>` in the body and by `...rc/<version>-<ref>` in the rewrite, and no piece contains `...<version>`: every link is rewritten and no other text changes |
| PushHandler.CreatePath | src/streamlined_releases/events/push.py:59-82 | the create path succeeds iff its non-forced bump succeeds |
| PushHandler.UpdatePath | src/streamlined_releases/events/push.py:84-104 | the update path succeeds iff its forced bump succeeds |
| PushHandler.CreatePathBumps | src/streamlined_releases/events/push.py:63-82 | the create path, however it ends, runs `uv version` for the bumped version right after the first checkout of the RC branch; the branch creation comes before that checkout; every commit and push comes after it and, on success, before the last effect; one commit and one push iff the bump succeeded on a dirty tree, none otherwise |
| PushHandler.UpdatePathBumps | src/streamlined_releases/events/push.py:88-104 | the update path starts with the reset to the kept head and, however it ends, runs `uv version` right after the first checkout of the RC branch, which comes after the reset; every commit and push comes after it and, on success, before the last effect; one commit and one push iff the bump succeeded on a dirty tree, none otherwise |
| PushHandler.PushRunCommits | src/streamlined_releases/events/push.py:59-104 | a successful run, on either path, commits the bump and pushes it exactly once when the tree was dirty and otherwise neither commits nor pushes |
| PushHandler.OnPush | src/streamlined_releases/events/push.py:17-20 | every run starts by asking git-cliff for the bumped version |
| PushHandler.PreludeFacts | src/streamlined_releases/events/push.py:20-52 | before either path, the run makes at most the one stale close, and touches no branch, commit or push |
| PushHandler.PushClosesAtMostOnce | src/streamlined_releases/events/push.py:38-44 | at most one pull request is closed per run, and only the one the stale rule picks |
| PushHandler.CreatePathCounts | src/streamlined_releases/events/push.py:76-82 | a successful create path ends with exactly one new pull request and edits, resets and closes nothing |
| PushHandler.CreatePathBranches | src/streamlined_releases/events/push.py:63-74 | the create path creates the branch iff it was not a local branch, and never force-pushes |
| PushHandler.UpdatePathShape | src/streamlined_releases/events/push.py:88-104 | a successful update path starts with the reset to the kept head, ends with one edit of that pull request, and opens, creates and closes nothing |
| PushHandler.CreatePathQuiet | src/streamlined_releases/events/push.py:59-82 | the create path, however it ends, never closes, edits or resets |
| PushHandler.UpdatePathQuiet | src/streamlined_releases/events/push.py:84-104 | the update path, however it ends, never closes, opens a pull request or creates a branch |
| PushHandler.UpdatePathPushes | src/streamlined_releases/events/push.py:93-98 | every push of the update path is forced |
| PushHandler.PushCreateRun | src/streamlined_releases/events/push.py:59-82 | a successful run that kept nothing ends by opening one pull request from the RC name into the pushed branch, with the RC title and the rewritten body; no edit or reset; the branch is created iff missing; no forced push |
| PushHandler.PushUpdateRun | src/streamlined_releases/events/push.py:84-104 | a successful run that kept a pull request resets to its head, forces any push it makes, and ends by editing it with the RC title and new body; nothing opened, created or closed |
| PushHandler.PushRunPushFollowsCommit | src/streamlined_releases/events/push.py:70-98 | in any run, however it ends, every bump commit is immediately followed by an `origin.push` of the branch, and every such push immediately follows a commit; the upstream push that creates a branch is a separate effect and is not covered |
| RcConvergence.PushRunPulls | src/streamlined_releases/events/push.py:38-82 | after a successful run the open pull requests are the old ones minus the stale one, plus the new RC pull request when none was kept |
| RcConvergence.DecisionConverges | src/streamlined_releases/events/push.py:30-82 | whatever is decided, starting from at most one RC pull request, exactly one remains and its head is the RC name |
| RcConvergence.SingleRcPullKept | src/streamlined_releases/events/push.py:30-44 | a list whose only RC pull request is the one for the bumped version makes the handler keep it and close nothing |
| RcConvergence.KeptRunQuiet | src/streamlined_releases/events/push.py:38-104 | a run that keeps a pull request closes nothing, opens nothing and creates no branch, however it ends |
| RcConvergence.PushConverges | src/streamlined_releases/events/push.py:17-104 | a successful run from at most one RC pull request leaves exactly one, for the bumped version |
| RcConvergence.PushRerunOpensNothing | src/streamlined_releases/events/push.py:17-104 | rerunning for the same version against what the first run left keeps its pull request; nothing is closed, opened or branched |
| BaseFilter.ForeignRcPullClosed | src/streamlined_releases/events/push.py:22-43 | as written, a push to `main` matches the RC pull request of `hotfix-main`, captures `v1.2.0-hotfix` and closes it; the corrected rule does not |
| BaseFilter.ForeignRcPullClosedByRun | src/streamlined_releases/events/push.py:17-43 | as written, the whole run on that example closes pull request 7 of `hotfix-main` |
| BaseFilter.DecideForBase | src/streamlined_releases/events/push.py:30-44 | corrected: whatever is closed or kept is an RC pull request into the pushed branch |
| BaseFilter.DecideForBaseIgnoresForeign | src/streamlined_releases/events/push.py:30-44 | corrected: pull requests into other branches never affect the decision, wherever they are listed |
| BaseFilter.DecideForBaseAgrees | src/streamlined_releases/events/push.py:30-44 | when every pull request goes into the pushed branch, the corrected and the original rules agree |
| BaseFilter.OnPushForBaseClosesOwn | src/streamlined_releases/events/push.py:38-44 | corrected handler: at most one close, and only of an RC pull request into the pushed branch |
| BaseFilter.ForeignPullsNeverClosed | src/streamlined_releases/events/push.py:38-44 | corrected handler: when no open pull request goes into the pushed branch (as in the `hotfix-main` example), nothing is closed |
| MergeHandler.OnPullRequestMerged | src/streamlined_releases/events/pull_request.py:26-55 | a found release is returned with no further call; any status other than 404 is an error with no change; on 404 the body diff runs, and on success the tag and release named after the version are created on the commit and returned |
| MergeHandler.MergeCreatesOnlyWhenMissing | src/streamlined_releases/events/pull_request.py:30-53 | exactly one release is created iff the lookup said 404 and the diff succeeded, otherwise none; no other remote change is made |
| MergeHandler.MergeRecordsRelease | src/streamlined_releases/events/pull_request.py:37-55 | after a successful run the platform holds the returned release under the version tag, and keeps every earlier tag |
| MergeHandler.MergeIdempotent | src/streamlined_releases/events/pull_request.py:17-37 | a second run for the same version makes no remote change, leaves the releases as they were and returns the same release |
| MergeHandler.MergeBodyArgs | src/streamlined_releases/events/pull_request.py:39-43 | the release body comes from the diff with bump, unreleased and the header stripped, and without prepend or output |

## Left out

- Running git-cliff, `uv`, GitPython and the platform client is not modelled. Their answers are inputs, and their calls are effects.
- Git plumbing and platform calls are assumed to succeed, except the release lookup and the subprocess runs. These are checkout, reset, add, commit, push, listing, closing, creating and editing.
- The event router, the self-actor skip and the dispatch of merged RC branches are not modelled. The module entry point is a stub.
- Settings loading (src/streamlined_releases/settings.py) is not modelled. The pushed branch, the commit, the changelog path and the bump actor are parameters.
- Logging is not modelled.
- `set_github_action_output` (an append to a file) is not modelled.
- `set_git_safe_directory` (a global git configuration write) is not modelled.
- `repo.is_dirty()` is an input. The model does not compute it from file contents.
- The effect of `reset --hard` on the working tree is not modelled. It is recorded as an effect only.
- The pull request list fold (`RcConvergence.ApplyPulls`) tracks open pull requests only. Titles, bodies and head commits after an edit are not tracked.
- The pushed branch is taken to contain no regular-expression metacharacter. The `$` of the push handler's template (push.py:22) and of the generic RC pattern `^rc/.+-.+$` (github.py:43) also matches before a final newline in Python. Both are modelled as end of string, since git refs hold no newline.
- MergeHandler.LookupIn and MergeHandler.ApplyReleases are not part of the code. They model the platform's releases as a map from tag to release: the lookup answers a stored release or 404, and a create stores one. `MergeHandler.MergeRecordsRelease` and `MergeHandler.MergeIdempotent` assume that the platform behaves this way.
- The generic RC pattern is used only as a yes/no test. No (version, ref) round trip is claimed for it: its greedy group splits at the last `-`.
- PushHandler.OnPush: its own contract only fixes the first effect. What a run does is stated by the lemmas about it.

## Findings

| source | as written | input that shows it | evidently intended | confidence | as-written member | corrected member |
|---|---|---|---|---|---|---|
| src/streamlined_releases/events/push.py:22,31,38-43 | RC pull requests are recognised by the head suffix `-<ref>` alone, so an RC pull request into another branch whose name ends in `-<ref>` is selected, and is closed as stale or updated | push to `main`, bumped `v1.2.0`, open pull request 7 from `rc/v1.2.0-hotfix-main` into `hotfix-main`: the template captures `v1.2.0-hotfix` and pull request 7 is closed | only pull requests into the pushed branch are considered | medium, not executed | BaseFilter.ForeignRcPullClosed | BaseFilter.DecideForBase |

The corrected handler `BaseFilter.OnPushForBase` is the handler run on the
pull requests into the pushed branch. The trace and convergence lemmas are
stated for `PushHandler.OnPush` as written. By `BaseFilter.DecideForBaseAgrees`,
the two decide alike whenever every listed pull request goes into the pushed
branch.
