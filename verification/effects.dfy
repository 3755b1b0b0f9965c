/** The outside world of the release orchestrator, seen as data.

    Every subprocess run, git command and hosting-platform call the handlers
    make is recorded as an `Effect`, in the order it is made; what those calls
    answer is handed to the handlers as input. A handler is then a pure
    function from its inputs to a `Run`: the effect trace plus either a value
    or the error that ended the invocation. */
module Effects {
  import opened Text

  datatype Option<+T> = None | Some(value: T)

  /** A commit identity (`git.Actor`). */
  datatype Actor = Actor(name: string, email: string)

  /** Why an invocation stopped. */
  datatype Error =
    | ToolFailed(args: seq<string>, code: int, stdout: string, stderr: string)
    | ApiFailed(status: int)

  datatype Result<+T> = Ok(value: T) | Err(error: Error)

  /** What a finished subprocess reports. */
  datatype ProcessResult = ProcessResult(code: int, stdout: string, stderr: string)

  datatype Effect =
    // subprocesses: git-cliff and `uv version`
    | RunProcess(args: seq<string>)
    // local git plumbing
    | Checkout(ref: string)
    | CheckoutNewBranch(base: string, branch: string)
    | ResetHard(sha: string)
    | Add(paths: seq<string>)
    | Commit(message: string, author: Actor, committer: Actor)
    // pushes to the `origin` remote
    | PushUpstream(branch: string)
    | Push(refspec: string, force: bool)
    // hosting-platform queries
    | ListOpenPulls
    | GetRelease(tag: string)
    // hosting-platform changes
    | ClosePull(number: int)
    | CreatePull(base: string, head: string, title: string, body: string)
    | EditPull(number: int, title: string, body: string)
    | CreateTagAndRelease(tag: string, tagMessage: string, releaseName: string,
                          releaseMessage: string, target: string, objectType: string)

  /** An effect that changes the remote repository or the hosting platform. */
  predicate IsRemoteChange(e: Effect) {
    e.PushUpstream? || e.Push? || e.ClosePull? || e.CreatePull? || e.EditPull? || e.CreateTagAndRelease?
  }

  /** Effects that touch the list of open pull requests. */
  predicate IsPullListChange(e: Effect) {
    e.ClosePull? || e.CreatePull?
  }

  predicate NoRemoteChange(t: seq<Effect>) {
    forall i :: 0 <= i < |t| ==> !IsRemoteChange(t[i])
  }

  predicate IsCommit(e: Effect) { e.Commit? }
  predicate IsPush(e: Effect) { e.Push? }
  predicate IsClose(e: Effect) { e.ClosePull? }
  predicate IsCreatePull(e: Effect) { e.CreatePull? }
  predicate IsEditPull(e: Effect) { e.EditPull? }
  predicate IsBranchCreation(e: Effect) { e.CheckoutNewBranch? || e.PushUpstream? }
  predicate IsReset(e: Effect) { e.ResetHard? }
  predicate IsReleaseCreation(e: Effect) { e.CreateTagAndRelease? }

  /** How many effects of a trace satisfy `p`. */
  function Count(t: seq<Effect>, p: Effect -> bool): (n: nat)
    ensures n <= |t|
    ensures n == 0 <==> forall i :: 0 <= i < |t| ==> !p(t[i])
  {
    if |t| == 0 then 0 else (if p(t[0]) then 1 else 0) + Count(t[1..], p)
  }

  lemma {:induction false} CountAppend(a: seq<Effect>, b: seq<Effect>, p: Effect -> bool)
    ensures Count(a + b, p) == Count(a, p) + Count(b, p)
    decreases |a|
  {
    if |a| == 0 {
      assert a + b == b;
    } else {
      assert (a + b)[1..] == a[1..] + b;
      CountAppend(a[1..], b, p);
    }
  }

  lemma CountSingle(e: Effect, p: Effect -> bool)
    ensures Count([e], p) == if p(e) then 1 else 0
  {
    assert [e][1..] == [];
  }

  /** When only the last effect of a trace can satisfy `p`, the count is
      whether it does. */
  lemma CountLast(t: seq<Effect>, p: Effect -> bool)
    requires |t| >= 1
    requires forall i :: 0 <= i < |t| - 1 ==> !p(t[i])
    ensures Count(t, p) == if p(t[|t| - 1]) then 1 else 0
  {
    var pre := t[..|t| - 1];
    assert t == pre + [t[|t| - 1]];
    assert forall i :: 0 <= i < |pre| ==> pre[i] == t[i];
    CountAppend(pre, [t[|t| - 1]], p);
    CountSingle(t[|t| - 1], p);
  }

  /** The position of the first `x` in `t`, or `|t|` when there is none. */
  function IndexOf(t: seq<Effect>, x: Effect): (k: nat)
    ensures k <= |t|
    ensures k < |t| ==> t[k] == x
  {
    if |t| == 0 then 0
    else if t[0] == x then 0
    else 1 + IndexOf(t[1..], x)
  }

  lemma {:induction false} IndexOfAppend(a: seq<Effect>, b: seq<Effect>, x: Effect)
    requires x !in a
    ensures IndexOf(a + b, x) == |a| + IndexOf(b, x)
    decreases |a|
  {
    if |a| != 0 {
      assert (a + b)[0] == a[0];
      assert (a + b)[1..] == a[1..] + b;
      IndexOfAppend(a[1..], b, x);
    } else {
      assert a + b == b;
    }
  }

  /** The git-push discipline of the version bumper: every commit is
      immediately followed by a push, and every push immediately follows a
      commit. */
  predicate PushFollowsCommit(t: seq<Effect>) {
    && (forall i :: 0 <= i < |t| && t[i].Commit? ==> i + 1 < |t| && t[i + 1].Push?)
    && (forall i :: 0 <= i < |t| && t[i].Push? ==> 0 < i && t[i - 1].Commit?)
  }

  /** Gluing two disciplined traces gives a disciplined trace. */
  lemma PushFollowsCommitAppend(a: seq<Effect>, b: seq<Effect>)
    requires PushFollowsCommit(a) && PushFollowsCommit(b)
    ensures PushFollowsCommit(a + b)
  {
    var t := a + b;
    forall i | 0 <= i < |t| && t[i].Commit?
      ensures i + 1 < |t| && t[i + 1].Push?
    {
      if i < |a| {
        assert a[i].Commit?;
      } else {
        assert b[i - |a|].Commit?;
      }
    }
    forall i | 0 <= i < |t| && t[i].Push?
      ensures 0 < i && t[i - 1].Commit?
    {
      if i < |a| {
        assert a[i].Push?;
      } else {
        assert b[i - |a|].Push?;
      }
    }
  }

  /** A finished invocation: the effects it made, then its value or error. */
  datatype Run<+T> = Run(effects: seq<Effect>, result: Result<T>)

  /** Runs a subprocess with `check=True` and returns `stdout.strip()`; a
      non-zero exit status raises. */
  function RunTool(args: seq<string>, p: ProcessResult): (r: Run<string>)
    ensures r.effects == [RunProcess(args)]
    ensures r.result.Ok? <==> p.code == 0
    ensures r.result.Ok? ==> r.result.value == Trim(p.stdout)
    ensures r.result.Err? ==> r.result.error == ToolFailed(args, p.code, p.stdout, p.stderr)
  {
    Run([RunProcess(args)],
        if p.code == 0 then Ok(Trim(p.stdout)) else Err(ToolFailed(args, p.code, p.stdout, p.stderr)))
  }
}
