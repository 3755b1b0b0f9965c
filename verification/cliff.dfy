/** The command lines the changelog service hands to git-cliff
    (services/git.py). The tool itself is outside the model: its exit status
    and output reach the handlers as a `ProcessResult`. */
module Cliff {
  import opened Effects

  /** The `strip` choices accepted by `get_gitcliff_changelog_diff`. */
  datatype StripMode = Header | Footer | All

  function StripValue(m: StripMode): string {
    match m
    case Header => "header"
    case Footer => "footer"
    case All => "all"
  }

  function ParseStripValue(s: string): (m: Option<StripMode>)
    ensures m.Some? ==> StripValue(m.value) == s
  {
    if s == "header" then Some(Header)
    else if s == "footer" then Some(Footer)
    else if s == "all" then Some(All)
    else None
  }

  /** The keyword arguments of `get_gitcliff_changelog_diff`. */
  datatype DiffOptions = DiffOptions(bump: bool, unreleased: bool, strip: Option<StripMode>,
                                     prepend: bool, toFile: bool)

  /** The options both handlers pass when they want a release-notes body:
      bump and unreleased on, the header stripped, no file output. */
  const BodyOptions := DiffOptions(true, true, Some(Header), false, false)

  /** The tokens git-cliff reads as options in the lists built here. */
  predicate IsFlag(s: string) {
    s in {"--bump", "--unreleased", "--strip", "--prepend", "--output", "-o"}
  }

  function Ind(b: bool): nat { if b then 1 else 0 }

  /** `part` when `b` holds, nothing otherwise: one `if ...: args.extend(...)`. */
  function Opt(b: bool, part: seq<string>): (r: seq<string>)
    ensures |r| == Ind(b) * |part|
    ensures forall x :: x in r <==> b && x in part
  {
    if b then part else []
  }

  function StripPart(strip: Option<StripMode>): (r: seq<string>)
    ensures |r| == 2 * Ind(strip.Some?)
    ensures forall x :: x in r <==> strip.Some? && (x == "--strip" || x == StripValue(strip.value))
  {
    match strip
    case Some(m) => ["--strip", StripValue(m)]
    case None => []
  }

  // The argument list is built in five stages, one per flag; each function
  // below is the list from its flag to the end.

  function OutputTail(toFile: bool, path: string): (r: seq<string>)
    ensures r == [] || r[0] == "--output"
  {
    Opt(toFile, ["--output", path])
  }

  function PrependTail(prepend: bool, toFile: bool, path: string): (r: seq<string>)
    ensures r == [] || r[0] in {"--prepend", "--output"}
  {
    Opt(prepend, ["--prepend", path]) + OutputTail(toFile, path)
  }

  function StripTail(strip: Option<StripMode>, prepend: bool, toFile: bool, path: string): (r: seq<string>)
    ensures r == [] || r[0] in {"--strip", "--prepend", "--output"}
  {
    StripPart(strip) + PrependTail(prepend, toFile, path)
  }

  function UnreleasedTail(o: DiffOptions, path: string): (r: seq<string>)
    ensures r == [] || r[0] in {"--unreleased", "--strip", "--prepend", "--output"}
  {
    Opt(o.unreleased, ["--unreleased"]) + StripTail(o.strip, o.prepend, o.toFile, path)
  }

  function FlagTail(o: DiffOptions, path: string): seq<string> {
    Opt(o.bump, ["--bump"]) + UnreleasedTail(o, path)
  }

  /** The argument list of `get_gitcliff_changelog_diff`; `path` is the
      configured changelog file. */
  function DiffArgs(o: DiffOptions, path: string): (args: seq<string>)
    ensures |args| >= 1 && args[0] == "git-cliff"
  {
    ["git-cliff"] + FlagTail(o, path)
  }

  /** What an argument list holds: the program name, and each option's
      tokens exactly when that option is set. */
  lemma DiffArgsContents(o: DiffOptions, path: string, x: string)
    ensures x in DiffArgs(o, path) <==>
              || x == "git-cliff"
              || (o.bump && x == "--bump")
              || (o.unreleased && x == "--unreleased")
              || (o.strip.Some? && (x == "--strip" || x == StripValue(o.strip.value)))
              || (o.prepend && (x == "--prepend" || x == path))
              || (o.toFile && (x == "--output" || x == path))
  {
  }

  /** The diff list starts with `git-cliff`, has one token per boolean flag
      and two per valued option, and (unless the changelog path itself looks
      like a flag) carries each flag exactly when its option is set. The
      `-o` short form never appears. */
  lemma DiffArgsFlags(o: DiffOptions, path: string)
    ensures DiffArgs(o, path)[0] == "git-cliff"
    ensures |DiffArgs(o, path)| == 1 + Ind(o.bump) + Ind(o.unreleased) + 2 * Ind(o.strip.Some?)
                                   + 2 * Ind(o.prepend) + 2 * Ind(o.toFile)
    ensures !IsFlag(path) ==>
              && ("--bump" in DiffArgs(o, path) <==> o.bump)
              && ("--unreleased" in DiffArgs(o, path) <==> o.unreleased)
              && ("--strip" in DiffArgs(o, path) <==> o.strip.Some?)
              && ("--prepend" in DiffArgs(o, path) <==> o.prepend)
              && ("--output" in DiffArgs(o, path) <==> o.toFile)
              && "-o" !in DiffArgs(o, path)
  {
    DiffArgsContents(o, path, "--bump");
    DiffArgsContents(o, path, "--unreleased");
    DiffArgsContents(o, path, "--strip");
    DiffArgsContents(o, path, "--prepend");
    DiffArgsContents(o, path, "--output");
    DiffArgsContents(o, path, "-o");
  }

  function LeadingFlags(o: DiffOptions): seq<string> {
    ["git-cliff"] + Opt(o.bump, ["--bump"]) + Opt(o.unreleased, ["--unreleased"])
  }

  lemma DiffArgsAroundStrip(o: DiffOptions, path: string)
    ensures DiffArgs(o, path) == LeadingFlags(o) + StripPart(o.strip) + PrependTail(o.prepend, o.toFile, path)
  {
  }

  /** `--strip` is immediately followed by the strip value. */
  lemma DiffArgsStripValue(o: DiffOptions, path: string, i: nat)
    requires !IsFlag(path)
    requires i < |DiffArgs(o, path)| && DiffArgs(o, path)[i] == "--strip"
    ensures o.strip.Some?
    ensures i + 1 < |DiffArgs(o, path)| && DiffArgs(o, path)[i + 1] == StripValue(o.strip.value)
  {
    var args := DiffArgs(o, path);
    var head := LeadingFlags(o);
    var tail := PrependTail(o.prepend, o.toFile, path);
    DiffArgsAroundStrip(o, path);
    var k := |head| + |StripPart(o.strip)|;
    assert "--strip" !in head;
    assert "--strip" !in tail;
    assert forall j :: 0 <= j < |head| ==> head[j] == args[j];
    assert forall j :: k <= j < |args| ==> tail[j - k] == args[j];
  }

  // Decoding, stage by stage, with the options already read as parameters.

  function ParseOutput(r: seq<string>, path: string, bump: bool, unreleased: bool,
                       strip: Option<StripMode>, prepend: bool): Option<DiffOptions>
  {
    if r == [] then Some(DiffOptions(bump, unreleased, strip, prepend, false))
    else if r == ["--output", path] then Some(DiffOptions(bump, unreleased, strip, prepend, true))
    else None
  }

  function ParsePrepend(r: seq<string>, path: string, bump: bool, unreleased: bool,
                        strip: Option<StripMode>): Option<DiffOptions>
  {
    if |r| >= 2 && r[0] == "--prepend" && r[1] == path
    then ParseOutput(r[2..], path, bump, unreleased, strip, true)
    else ParseOutput(r, path, bump, unreleased, strip, false)
  }

  function ParseStrip(r: seq<string>, path: string, bump: bool, unreleased: bool): Option<DiffOptions> {
    if |r| >= 2 && r[0] == "--strip" && ParseStripValue(r[1]).Some?
    then ParsePrepend(r[2..], path, bump, unreleased, ParseStripValue(r[1]))
    else ParsePrepend(r, path, bump, unreleased, None)
  }

  function ParseUnreleased(r: seq<string>, path: string, bump: bool): Option<DiffOptions> {
    if |r| >= 1 && r[0] == "--unreleased"
    then ParseStrip(r[1..], path, bump, true)
    else ParseStrip(r, path, bump, false)
  }

  function ParseBump(r: seq<string>, path: string): Option<DiffOptions> {
    if |r| >= 1 && r[0] == "--bump"
    then ParseUnreleased(r[1..], path, true)
    else ParseUnreleased(r, path, false)
  }

  /** Reads an argument list back into the options that produced it, when it
      is one the diff builder can produce: flags in their fixed order, each
      at most once, `--strip` followed by a strip value and the file options
      followed by the changelog path. */
  function ParseDiffArgs(args: seq<string>, path: string): Option<DiffOptions> {
    if |args| >= 1 && args[0] == "git-cliff" then ParseBump(args[1..], path) else None
  }

  lemma ParseOutputTail(o: DiffOptions, path: string)
    ensures ParseOutput(OutputTail(o.toFile, path), path, o.bump, o.unreleased, o.strip, o.prepend) == Some(o)
  {
  }

  lemma ParsePrependTail(o: DiffOptions, path: string)
    ensures ParsePrepend(PrependTail(o.prepend, o.toFile, path), path, o.bump, o.unreleased, o.strip) == Some(o)
  {
    ParseOutputTail(o, path);
    if o.prepend {
      assert PrependTail(o.prepend, o.toFile, path)[2..] == OutputTail(o.toFile, path);
    }
  }

  lemma ParseStripTail(o: DiffOptions, path: string)
    ensures ParseStrip(StripTail(o.strip, o.prepend, o.toFile, path), path, o.bump, o.unreleased) == Some(o)
  {
    ParsePrependTail(o, path);
    match o.strip {
      case Some(m) =>
        assert ParseStripValue(StripValue(m)) == Some(m);
        assert StripTail(o.strip, o.prepend, o.toFile, path)[2..] == PrependTail(o.prepend, o.toFile, path);
      case None =>
    }
  }

  lemma ParseUnreleasedTail(o: DiffOptions, path: string)
    ensures ParseUnreleased(UnreleasedTail(o, path), path, o.bump) == Some(o)
  {
    ParseStripTail(o, path);
    if o.unreleased {
      assert UnreleasedTail(o, path)[1..] == StripTail(o.strip, o.prepend, o.toFile, path);
    }
  }

  /** Every argument list the diff builder produces decodes to its options:
      the list fixes the flags' order and the value after `--strip`,
      whatever the changelog path is. */
  lemma DiffArgsParse(o: DiffOptions, path: string)
    ensures ParseDiffArgs(DiffArgs(o, path), path) == Some(o)
  {
    ParseUnreleasedTail(o, path);
    assert DiffArgs(o, path)[1..] == FlagTail(o, path);
    if o.bump {
      assert FlagTail(o, path)[1..] == UnreleasedTail(o, path);
    }
  }

  lemma ParseOutputExact(r: seq<string>, path: string, bump: bool, unreleased: bool,
                         strip: Option<StripMode>, prepend: bool)
    requires ParseOutput(r, path, bump, unreleased, strip, prepend).Some?
    ensures var o := ParseOutput(r, path, bump, unreleased, strip, prepend).value;
            o.bump == bump && o.unreleased == unreleased && o.strip == strip && o.prepend == prepend
            && OutputTail(o.toFile, path) == r
  {
  }

  lemma ParsePrependExact(r: seq<string>, path: string, bump: bool, unreleased: bool, strip: Option<StripMode>)
    requires ParsePrepend(r, path, bump, unreleased, strip).Some?
    ensures var o := ParsePrepend(r, path, bump, unreleased, strip).value;
            o.bump == bump && o.unreleased == unreleased && o.strip == strip
            && PrependTail(o.prepend, o.toFile, path) == r
  {
    if |r| >= 2 && r[0] == "--prepend" && r[1] == path {
      ParseOutputExact(r[2..], path, bump, unreleased, strip, true);
      assert r == ["--prepend", path] + r[2..];
    } else {
      ParseOutputExact(r, path, bump, unreleased, strip, false);
    }
  }

  lemma ParseStripExact(r: seq<string>, path: string, bump: bool, unreleased: bool)
    requires ParseStrip(r, path, bump, unreleased).Some?
    ensures var o := ParseStrip(r, path, bump, unreleased).value;
            o.bump == bump && o.unreleased == unreleased
            && StripTail(o.strip, o.prepend, o.toFile, path) == r
  {
    if |r| >= 2 && r[0] == "--strip" && ParseStripValue(r[1]).Some? {
      ParsePrependExact(r[2..], path, bump, unreleased, ParseStripValue(r[1]));
      assert r == [r[0], r[1]] + r[2..];
    } else {
      ParsePrependExact(r, path, bump, unreleased, None);
    }
  }

  lemma ParseUnreleasedExact(r: seq<string>, path: string, bump: bool)
    requires ParseUnreleased(r, path, bump).Some?
    ensures var o := ParseUnreleased(r, path, bump).value;
            o.bump == bump && UnreleasedTail(o, path) == r
  {
    if |r| >= 1 && r[0] == "--unreleased" {
      ParseStripExact(r[1..], path, bump, true);
      assert r == [r[0]] + r[1..];
    } else {
      ParseStripExact(r, path, bump, false);
    }
  }

  /** Nothing else decodes: options read back from an argument list rebuild
      that very list, so the builder is injective. */
  lemma ParseDiffArgsExact(args: seq<string>, path: string)
    requires ParseDiffArgs(args, path).Some?
    ensures DiffArgs(ParseDiffArgs(args, path).value, path) == args
  {
    var r := args[1..];
    assert args == [args[0]] + r;
    if |r| >= 1 && r[0] == "--bump" {
      ParseUnreleasedExact(r[1..], path, true);
      assert r == [r[0]] + r[1..];
    } else {
      ParseUnreleasedExact(r, path, false);
    }
  }

  /** The argument list of `generate_gitcliff_changelog_file`: write a new
      changelog with `-o` when the file is absent, prepend the unreleased
      section when it exists. */
  function ChangelogFileArgs(fileExists: bool, path: string): (args: seq<string>)
    ensures |args| == if fileExists then 5 else 4
    ensures args[..2] == ["git-cliff", "--bump"]
    ensures args[|args| - 1] == path
    ensures fileExists <==> "--prepend" in args[..|args| - 1]
    ensures !fileExists <==> "-o" in args[..|args| - 1]
    ensures "--output" !in args[..|args| - 1]
    ensures fileExists ==> args[2..4] == ["--unreleased", "--prepend"]
    ensures !fileExists ==> args[2] == "-o"
  {
    var r := if !fileExists then ["git-cliff", "--bump", "-o", path]
             else ["git-cliff", "--bump", "--unreleased", "--prepend", path];
    assert r[..|r| - 1] == if !fileExists then ["git-cliff", "--bump", "-o"]
                           else ["git-cliff", "--bump", "--unreleased", "--prepend"];
    r
  }

  /** Prepending to an existing changelog asks git-cliff for exactly what the
      diff builder asks for with `bump`, `unreleased` and `prepend` set. */
  lemma PrependIsDiffWithPrepend(path: string)
    ensures ChangelogFileArgs(true, path) == DiffArgs(DiffOptions(true, true, None, true, false), path)
  {
  }

  /** `get_gitcliff_bumped_version` asks only for the next version. */
  const BumpedVersionArgs: seq<string> := ["git-cliff", "--bumped-version"]

  /** The `uv version` command that rewrites the project manifest. */
  function UvVersionArgs(version: string): seq<string> {
    ["uv", "version", "--frozen", "--short", version]
  }
}
