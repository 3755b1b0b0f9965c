/** String helpers with the exact behaviour of the Python string methods the
    release orchestrator relies on: `str.strip()` on tool output and
    `str.replace(pat, sub)` on the pull-request body. */
module Text {

  /** The characters for which Python's `str.isspace()` holds. */
  predicate IsSpace(c: char) {
    || c == ' '
    || ('\t' <= c <= '\r')
    || ('\U{1c}' <= c <= '\U{1f}')
    || c == '\U{85}' || c == '\U{a0}' || c == '\U{1680}'
    || ('\U{2000}' <= c <= '\U{200a}')
    || c == '\U{2028}' || c == '\U{2029}' || c == '\U{202f}'
    || c == '\U{205f}' || c == '\U{3000}'
  }

  /** Regular-expression `.` matches every character except a newline. */
  predicate NoNewline(s: string) {
    forall i :: 0 <= i < |s| ==> s[i] != '\n'
  }

  /** Number of leading whitespace characters of `s`. */
  function LeadingSpace(s: string): (n: nat)
    ensures n <= |s|
    ensures forall k :: 0 <= k < n ==> IsSpace(s[k])
    ensures n == |s| || !IsSpace(s[n])
  {
    if |s| == 0 || !IsSpace(s[0]) then 0 else 1 + LeadingSpace(s[1..])
  }

  /** End of `s` once trailing whitespace at or after `lo` is dropped. */
  function TrailingStart(s: string, lo: nat): (j: nat)
    requires lo <= |s|
    ensures lo <= j <= |s|
    ensures forall k :: j <= k < |s| ==> IsSpace(s[k])
    ensures j == lo || !IsSpace(s[j - 1])
  {
    if |s| == lo || !IsSpace(s[|s| - 1]) then |s| else TrailingStart(s[..|s| - 1], lo)
  }

  /** Python's `s.strip()`: drop leading and trailing whitespace. */
  function Trim(s: string): (r: string)
    ensures |r| <= |s|
    ensures r == [] || (!IsSpace(r[0]) && !IsSpace(r[|r| - 1]))
    ensures exists i :: 0 <= i <= |s| && r <= s[i..]
  {
    var i := LeadingSpace(s);
    var j := TrailingStart(s, i);
    assert s[i..j] <= s[i..];
    s[i..j]
  }

  predicate AllSpace(s: string) {
    forall k :: 0 <= k < |s| ==> IsSpace(s[k])
  }

  /** Whitespace padding around an already trimmed text is exactly what
      `Trim` removes. */
  lemma TrimPadding(a: string, t: string, b: string)
    requires AllSpace(a) && AllSpace(b)
    requires t == [] || (!IsSpace(t[0]) && !IsSpace(t[|t| - 1]))
    ensures Trim(a + t + b) == t
  {
    var s := a + t + b;
    LeadingOfPadded(a, t + b);
    assert s == a + (t + b);
    var i := LeadingSpace(s);
    if t == [] {
      assert i == |s|;
      assert Trim(s) == s[|s|..|s|];
    } else {
      assert i == |a|;
      var j := TrailingStart(s, i);
      assert s[|a| + |t| - 1] == t[|t| - 1];
      assert forall k :: |a| + |t| <= k < |s| ==> s[k] == b[k - |a| - |t|];
      assert j == |a| + |t|;
      assert s[i..j] == t;
    }
  }

  lemma LeadingOfPadded(a: string, rest: string)
    requires AllSpace(a)
    ensures rest != [] && !IsSpace(rest[0]) ==> LeadingSpace(a + rest) == |a|
    ensures AllSpace(rest) ==> LeadingSpace(a + rest) == |a + rest|
  {
    var s := a + rest;
    var n := LeadingSpace(s);
    assert forall k :: 0 <= k < |a| ==> s[k] == a[k];
    assert forall k :: |a| <= k < |s| ==> s[k] == rest[k - |a|];
    if rest != [] && !IsSpace(rest[0]) {
      assert !IsSpace(s[|a|]);
    }
  }

  /** Trimming twice is trimming once. */
  lemma TrimIdempotent(s: string)
    ensures Trim(Trim(s)) == Trim(s)
  {
    TrimPadding([], Trim(s), []);
    assert [] + Trim(s) + [] == Trim(s);
  }

  /** Python's `s.replace(pat, sub)`: scanning left to right, every
      non-overlapping occurrence of `pat` is replaced by `sub`. */
  function Replace(s: string, pat: string, sub: string): string
    requires pat != []
    decreases |s|
  {
    if |s| < |pat| then s
    else if s[..|pat|] == pat then sub + Replace(s[|pat|..], pat, sub)
    else [s[0]] + Replace(s[1..], pat, sub)
  }

  /** Python's `s.count(pat)`: the number of occurrences the same
      left-to-right scan finds. */
  function Occurrences(s: string, pat: string): nat
    requires pat != []
    decreases |s|
  {
    if |s| < |pat| then 0
    else if s[..|pat|] == pat then 1 + Occurrences(s[|pat|..], pat)
    else Occurrences(s[1..], pat)
  }

  /** Each occurrence grows or shrinks the text by the length difference of
      the two strings, and nothing else changes its length. */
  lemma {:induction false} ReplaceLength(s: string, pat: string, sub: string)
    requires pat != []
    ensures |Replace(s, pat, sub)| == |s| + Occurrences(s, pat) * (|sub| - |pat|)
    decreases |s|
  {
    if |s| < |pat| {
    } else if s[..|pat|] == pat {
      ReplaceLength(s[|pat|..], pat, sub);
      MulSucc(Occurrences(s[|pat|..], pat), |sub| - |pat|);
    } else {
      ReplaceLength(s[1..], pat, sub);
    }
  }

  lemma MulSucc(c: nat, d: int)
    ensures (1 + c) * d == c * d + d
  {
  }

  /** Text without an occurrence of `pat` is left unchanged. */
  lemma {:induction false} ReplaceAbsent(s: string, pat: string, sub: string)
    requires pat != []
    requires Occurrences(s, pat) == 0
    ensures Replace(s, pat, sub) == s
    decreases |s|
  {
    if |s| < |pat| {
    } else {
      ReplaceAbsent(s[1..], pat, sub);
      assert [s[0]] + s[1..] == s;
    }
  }

  /** Replacing a string by itself changes nothing. */
  lemma {:induction false} ReplaceSelf(s: string, pat: string)
    requires pat != []
    ensures Replace(s, pat, pat) == s
    decreases |s|
  {
    if |s| < |pat| {
    } else if s[..|pat|] == pat {
      ReplaceSelf(s[|pat|..], pat);
      assert s[..|pat|] + s[|pat|..] == s;
    } else {
      ReplaceSelf(s[1..], pat);
      assert [s[0]] + s[1..] == s;
    }
  }

  /** The text between the occurrences the replace scan finds, in order:
      one piece more than there are occurrences. */
  function Pieces(s: string, pat: string): (ps: seq<string>)
    requires pat != []
    ensures |ps| >= 1
    decreases |s|
  {
    if |s| < |pat| then [s]
    else if s[..|pat|] == pat then [[]] + Pieces(s[|pat|..], pat)
    else
      var rest := Pieces(s[1..], pat);
      [[s[0]] + rest[0]] + rest[1..]
  }

  /** The pieces glued together with `sep` between neighbours. */
  function Join(ps: seq<string>, sep: string): string
    requires |ps| >= 1
    decreases |ps|
  {
    if |ps| == 1 then ps[0] else ps[0] + sep + Join(ps[1..], sep)
  }

  lemma JoinExtendHead(c: string, ps: seq<string>, sep: string)
    requires |ps| >= 1
    ensures Join([c + ps[0]] + ps[1..], sep) == c + Join(ps, sep)
  {
    var qs := [c + ps[0]] + ps[1..];
    assert qs[1..] == ps[1..];
    if |ps| > 1 {
      assert Join(qs, sep) == c + ps[0] + sep + Join(ps[1..], sep);
    }
  }

  /** Replacing is cutting the text at the occurrences and gluing the pieces
      back with the replacement: every occurrence is replaced and the text
      between occurrences is kept as it was. */
  lemma {:induction false} ReplaceIsJoin(s: string, pat: string, sub: string)
    requires pat != []
    ensures Replace(s, pat, sub) == Join(Pieces(s, pat), sub)
    ensures |Pieces(s, pat)| == Occurrences(s, pat) + 1
    decreases |s|
  {
    if |s| < |pat| {
    } else if s[..|pat|] == pat {
      ReplaceIsJoin(s[|pat|..], pat, sub);
      var ps := [[]] + Pieces(s[|pat|..], pat);
      assert ps[1..] == Pieces(s[|pat|..], pat);
      assert Join(ps, sub) == [] + sub + Join(ps[1..], sub);
    } else {
      ReplaceIsJoin(s[1..], pat, sub);
      JoinExtendHead([s[0]], Pieces(s[1..], pat), sub);
    }
  }

  /** `pat` occurs in `s` at position `j`. */
  predicate OccursAt(s: string, pat: string, j: int) {
    0 <= j <= |s| - |pat| && s[j..j + |pat|] == pat
  }

  /** The first piece is where the text starts. */
  lemma {:induction false} PiecesHeadPrefix(s: string, pat: string)
    requires pat != []
    ensures Pieces(s, pat)[0] <= s
    decreases |s|
  {
    if |s| < |pat| {
    } else if s[..|pat|] == pat {
    } else {
      PiecesHeadPrefix(s[1..], pat);
      assert [s[0]] + s[1..] == s;
    }
  }

  /** The scan finds no occurrence exactly when the pattern occurs nowhere
      in the text. */
  lemma {:induction false} OccurrencesZero(s: string, pat: string)
    requires pat != []
    ensures Occurrences(s, pat) == 0 <==> forall j :: !OccursAt(s, pat, j)
    decreases |s|
  {
    if |s| < |pat| {
    } else if s[..|pat|] == pat {
      assert OccursAt(s, pat, 0);
    } else {
      OccurrencesZero(s[1..], pat);
      forall j
        ensures OccursAt(s, pat, j) <==> j >= 1 && OccursAt(s[1..], pat, j - 1)
      {
        if 1 <= j <= |s| - |pat| {
          assert s[j..j + |pat|] == s[1..][j - 1..j - 1 + |pat|];
        }
      }
      if Occurrences(s[1..], pat) != 0 {
        var j :| OccursAt(s[1..], pat, j);
        assert OccursAt(s, pat, j + 1);
      }
    }
  }

  /** No piece contains the pattern: the scan cuts the text at every
      occurrence, so none survives between the cuts. */
  lemma {:induction false} PiecesFree(s: string, pat: string, k: nat, j: int)
    requires pat != [] && k < |Pieces(s, pat)|
    ensures !OccursAt(Pieces(s, pat)[k], pat, j)
    decreases |s|
  {
    if !(0 <= j <= |Pieces(s, pat)[k]| - |pat|) {
    } else if |s| < |pat| {
    } else if s[..|pat|] == pat {
      assert Pieces(s, pat)[k] == Pieces(s[|pat|..], pat)[k - 1];
      PiecesFree(s[|pat|..], pat, k - 1, j);
    } else {
      var rest := Pieces(s[1..], pat);
      if k > 0 {
        assert Pieces(s, pat)[k] == rest[k];
        PiecesFree(s[1..], pat, k, j);
      } else if j > 0 {
        assert Pieces(s, pat)[0][j..j + |pat|] == rest[0][j - 1..j - 1 + |pat|];
        PiecesFree(s[1..], pat, 0, j - 1);
      } else {
        PiecesHeadPrefix(s, pat);
        assert Pieces(s, pat)[0][..|pat|] == s[..|pat|];
      }
    }
  }

  /** The text itself is its pieces glued back with the pattern. */
  lemma SplitJoin(s: string, pat: string)
    requires pat != []
    ensures Join(Pieces(s, pat), pat) == s
  {
    ReplaceIsJoin(s, pat, pat);
    ReplaceSelf(s, pat);
  }
}
