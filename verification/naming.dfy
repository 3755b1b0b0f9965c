/** The release-candidate branch naming convention `rc/<version>-<ref>`.

    The code builds names by string formatting and recognises them with two
    anchored regular expressions: one whose ref part is the literal base
    branch name (events/push.py) and a generic one with two `.+` groups
    (services/github.py). Both are modelled as string predicates; a
    regular-expression `.` is any character except a newline, and the base
    branch name is taken to hold no regular-expression metacharacter. */
module RcNaming {
  import opened Text
  import opened Effects

  /** `f'rc/{bumped_version}-{ref_name}'` */
  function RcBranchName(version: string, ref: string): string {
    "rc/" + version + "-" + ref
  }

  /** `re.compile(rf'^rc/(?P<version>.+)-{ref}$').match(head)`, answering the
      `version` group on a match. The group is greedy, but with a literal
      suffix there is only one way to split, so the group is everything
      between `rc/` and `-<ref>`. */
  function MatchTemplate(head: string, ref: string): (m: Option<string>)
    ensures m.Some? ==> m.value != [] && NoNewline(m.value) && head == RcBranchName(m.value, ref)
    ensures m.None? ==> forall v :: v != [] && NoNewline(v) ==> head != RcBranchName(v, ref)
  {
    if |head| >= 5 + |ref| && head[..3] == "rc/" && head[|head| - |ref| - 1..] == "-" + ref
       && NoNewline(head[3..|head| - |ref| - 1])
    then
      var v := head[3..|head| - |ref| - 1];
      assert head == "rc/" + v + "-" + ref by {
        assert head == head[..3] + v + head[|head| - |ref| - 1..];
      }
      Some(v)
    else
      assert forall v :: v != [] && NoNewline(v) ==> head != RcBranchName(v, ref) by {
        forall v | v != [] && NoNewline(v)
          ensures NameParts(RcBranchName(v, ref), ref, v)
        {
          RcBranchNameParts(v, ref);
        }
      }
      None
  }

  /** The pieces the template inspects, as found in `head` when it is the
      name built for `(v, ref)`. */
  predicate NameParts(head: string, ref: string, v: string) {
    && |head| == 4 + |v| + |ref|
    && head[..3] == "rc/"
    && head[|head| - |ref| - 1..] == "-" + ref
    && head[3..|head| - |ref| - 1] == v
  }

  lemma RcBranchNameParts(v: string, ref: string)
    ensures NameParts(RcBranchName(v, ref), ref, v)
  {
    var head := RcBranchName(v, ref);
    assert head == "rc/" + v + ("-" + ref);
  }

  /** Round trip of the naming convention: the template built for `ref`
      matches the name built for `(version, ref)` and captures exactly
      `version`. */
  lemma TemplateRoundTrip(version: string, ref: string)
    requires version != [] && NoNewline(version)
    ensures MatchTemplate(RcBranchName(version, ref), ref) == Some(version)
  {
    RcBranchNameParts(version, ref);
  }

  /** `^rc/(?P<version>.+)-(?P<ref>.+)$` from `is_rc_commit`: after `rc/`
      there is a `-` with at least one character on each side, and no
      character matched by `.+` is a newline. */
  predicate IsRcRef(head: string) {
    && |head| >= 3
    && head[..3] == "rc/"
    && NoNewline(head[3..])
    && exists k :: 4 <= k < |head| - 1 && head[k] == '-'
  }

  /** Every name the push handler builds from a non-empty version and base
      branch is recognised by the generic pattern. */
  lemma RcBranchNameIsRcRef(version: string, ref: string)
    requires version != [] && ref != []
    requires NoNewline(version) && NoNewline(ref)
    ensures IsRcRef(RcBranchName(version, ref))
  {
    var head := RcBranchName(version, ref);
    var k := 3 + |version|;
    assert head[k] == '-';
    assert head[3..] == version + "-" + ref;
    assert forall i :: 0 <= i < |head[3..]| ==> head[3..][i] != '\n' by {
      forall i | 0 <= i < |head[3..]|
        ensures head[3..][i] != '\n'
      {
        if i < |version| {
          assert head[3..][i] == version[i];
        } else if i > |version| {
          assert head[3..][i] == ref[i - |version| - 1];
        }
      }
    }
  }

  /** Whatever the push handler's template accepts for a non-empty base
      branch, the generic pattern accepts too. */
  lemma TemplateMatchIsRcRef(head: string, ref: string)
    requires ref != [] && NoNewline(ref)
    requires MatchTemplate(head, ref).Some?
    ensures IsRcRef(head)
  {
    RcBranchNameIsRcRef(MatchTemplate(head, ref).value, ref);
  }
}
