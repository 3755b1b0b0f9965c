/** The hosting-platform half of the orchestrator (services/github.py):
    pull requests as the platform reports them, opening a pull request, and
    deciding whether a commit came from merging a release-candidate branch. */
module GitHubService {
  import opened Effects
  import opened RcNaming

  /** A pull request, with the fields the handlers read. */
  datatype PullRequest = PullRequest(number: int, headRef: string, headSha: string,
                                     baseRef: string, merged: bool)

  /** `create_pull_request`: one create call carrying the head, base, title
      and body it was given. */
  function CreatePullRequest(headRef: string, baseRef: string, title: string, body: string): (e: Effect)
    ensures e.CreatePull? && e.head == headRef && e.base == baseRef && e.title == title && e.body == body
  {
    CreatePull(base := baseRef, head := headRef, title := title, body := body)
  }

  /** Some pull request of the commit was merged from a branch the generic
      release-candidate pattern recognises. */
  predicate HasMergedRcPull(prs: seq<PullRequest>) {
    exists i :: 0 <= i < |prs| && prs[i].merged && IsRcRef(prs[i].headRef)
  }

  /** `is_rc_commit`: scan the pull requests associated with the commit and
      answer true at the first merged one whose head ref matches
      `^rc/(?P<version>.+)-(?P<ref>.+)$`. */
  method IsRcCommit(prs: seq<PullRequest>) returns (r: bool)
    ensures r <==> HasMergedRcPull(prs)
  {
    var i := 0;
    while i < |prs|
      invariant 0 <= i <= |prs|
      invariant forall j :: 0 <= j < i ==> !(prs[j].merged && IsRcRef(prs[j].headRef))
    {
      if prs[i].merged {
        if IsRcRef(prs[i].headRef) {
          return true;
        }
      }
      i := i + 1;
    }
    return false;
  }

  /** The answer depends only on which pull requests there are, not on the
      order the platform lists them in. */
  lemma HasMergedRcPullOrderFree(a: seq<PullRequest>, b: seq<PullRequest>)
    requires multiset(a) == multiset(b)
    ensures HasMergedRcPull(a) <==> HasMergedRcPull(b)
  {
    if HasMergedRcPull(a) {
      var i :| 0 <= i < |a| && a[i].merged && IsRcRef(a[i].headRef);
      assert a[i] in multiset(b);
      var j :| 0 <= j < |b| && b[j] == a[i];
    }
    if HasMergedRcPull(b) {
      var j :| 0 <= j < |b| && b[j].merged && IsRcRef(b[j].headRef);
      assert b[j] in multiset(a);
      var i :| 0 <= i < |a| && a[i] == b[j];
    }
  }

  /** Pull requests that were not merged never make the answer true,
      whatever their head ref; with none at all it is false. */
  lemma UnmergedPullsIrrelevant(a: seq<PullRequest>, b: seq<PullRequest>)
    requires forall j :: 0 <= j < |b| ==> !b[j].merged
    ensures HasMergedRcPull(a + b) <==> HasMergedRcPull(a)
    ensures !HasMergedRcPull([])
  {
    if HasMergedRcPull(a + b) {
      var i :| 0 <= i < |a + b| && (a + b)[i].merged && IsRcRef((a + b)[i].headRef);
      assert forall k :: |a| <= k < |a + b| ==> (a + b)[k] == b[k - |a|];
      assert (a + b)[i] == a[i];
    }
    if HasMergedRcPull(a) {
      var i :| 0 <= i < |a| && a[i].merged && IsRcRef(a[i].headRef);
      assert (a + b)[i] == a[i];
    }
  }
}
