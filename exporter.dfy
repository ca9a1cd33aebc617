// Command-line option parsing of the exporter (Exporter::parseArgs, src/Exporter.cpp):
// the input path, the output directory (defaulting to the input's directory and always
// ending in a path separator when set), and the --stats and --validate flags.

module Exporter {

  datatype Options = Options(input: string, outDir: string, printStats: bool, validate: bool)

  predicate IsSeparator(c: char) { c == '/' || c == '\\' }

  /** An output directory as it is stored: empty, or ending in a separator. */
  predicate DirNormalized(d: string) { |d| == 0 || IsSeparator(d[|d| - 1]) }

  /** A non-empty directory not ending in '/' or '\' gets '/' appended. */
  function WithSeparator(d: string): (r: string)
  {
    if |d| > 0 && !IsSeparator(d[|d| - 1]) then d + ['/'] else d
  }

  /** The rewrite only ever adds one '/', keeps the text before it, yields a normalised
      directory, and changes nothing in a directory that is already normalised. */
  lemma WithSeparatorShape(d: string)
    ensures DirNormalized(WithSeparator(d))
    ensures WithSeparator(d)[..|d|] == d && |d| <= |WithSeparator(d)| <= |d| + 1
    ensures WithSeparator(d) == "" <==> d == ""
    ensures DirNormalized(d) ==> WithSeparator(d) == d
  {
  }

  /** The default output directory: the input's parent path and '/', or empty when the
      input has no parent path. `parent` is what the path library reports. */
  function DefaultOutDir(parent: string): (d: string)
  {
    if |parent| > 0 then parent + ['/'] else ""
  }

  lemma DefaultOutDirNormalized(parent: string)
    ensures DirNormalized(DefaultOutDir(parent))
    ensures |parent| > 0 ==> DefaultOutDir(parent)[..|parent|] == parent
  {
  }

  /** The options after the arguments `rest`, starting from `o`: "--stats" and
      "--validate" set their flags, "--outdir" followed by a value sets the directory
      and consumes the value, anything else (including a final "--outdir") is ignored. */
  function ParseRest(rest: seq<string>, o: Options): Options
    decreases |rest|
  {
    if |rest| == 0 then o
    else if rest[0] == "--stats" then ParseRest(rest[1..], o.(printStats := true))
    else if rest[0] == "--validate" then ParseRest(rest[1..], o.(validate := true))
    else if rest[0] == "--outdir" && |rest| >= 2 then ParseRest(rest[2..], o.(outDir := WithSeparator(rest[1])))
    else ParseRest(rest[1..], o)
  }

  /** The options for a command line whose first argument (after the program name) is
      the input file; `parent` is the input's parent path. */
  function ParseCommandLine(args: seq<string>, parent: string): Options
    requires |args| >= 2
  {
    ParseRest(args[2..], Options(args[1], DefaultOutDir(parent), false, false))
  }

  /** The argument loop, with its index advanced by hand past an --outdir value. */
  method ParseArgs(args: seq<string>, parentPath: string -> string) returns (o: Options)
    requires |args| >= 2
    ensures o == ParseCommandLine(args, parentPath(args[1]))
  {
    o := Options(args[1], "", false, false);
    var parent := parentPath(o.input);
    o := o.(outDir := if |parent| > 0 then parent + ['/'] else "");

    ghost var goal := ParseCommandLine(args, parent);
    var i := 2;
    while i < |args|
      invariant 2 <= i <= |args|
      invariant goal == ParseRest(args[i..], o)
      decreases |args| - i
    {
      assert args[i..][1..] == args[i + 1..];
      if args[i] == "--stats" {
        o := o.(printStats := true);
      } else if args[i] == "--validate" {
        o := o.(validate := true);
      } else if args[i] == "--outdir" && i + 1 < |args| {
        assert args[i..][2..] == args[i + 2..];
        var dir := args[i + 1];
        if |dir| > 0 && dir[|dir| - 1] != '/' && dir[|dir| - 1] != '\\' {
          dir := dir + ['/'];
        }
        o := o.(outDir := dir);
        i := i + 1;
      }
      i := i + 1;
    }
    assert args[i..] == [];
  }

  /** Parsing never clears a flag and never leaves an un-normalised directory behind. */
  lemma {:induction false} ParseRestKeeps(rest: seq<string>, o: Options)
    requires DirNormalized(o.outDir)
    ensures var o' := ParseRest(rest, o);
      && o'.input == o.input
      && DirNormalized(o'.outDir)
      && (o.printStats ==> o'.printStats)
      && (o.validate ==> o'.validate)
    decreases |rest|
  {
    if |rest| > 0 {
      if rest[0] == "--outdir" && |rest| >= 2 {
        WithSeparatorShape(rest[1]);
        ParseRestKeeps(rest[2..], o.(outDir := WithSeparator(rest[1])));
      } else if rest[0] == "--stats" {
        ParseRestKeeps(rest[1..], o.(printStats := true));
      } else if rest[0] == "--validate" {
        ParseRestKeeps(rest[1..], o.(validate := true));
      } else {
        ParseRestKeeps(rest[1..], o);
      }
    }
  }

  /** The parsed input is the first argument and the output directory is empty or ends
      in a separator. */
  lemma ParsedOptionsWellFormed(args: seq<string>, parent: string)
    requires |args| >= 2
    ensures ParseCommandLine(args, parent).input == args[1]
    ensures DirNormalized(ParseCommandLine(args, parent).outDir)
  {
    DefaultOutDirNormalized(parent);
    ParseRestKeeps(args[2..], Options(args[1], DefaultOutDir(parent), false, false));
  }

  /** Without any "--outdir" argument, a flag is set exactly when its argument appears,
      and the directory keeps its default. */
  lemma {:induction false} FlagsWithoutOutdir(rest: seq<string>, o: Options)
    requires "--outdir" !in rest
    ensures ParseRest(rest, o).printStats <==> o.printStats || "--stats" in rest
    ensures ParseRest(rest, o).validate <==> o.validate || "--validate" in rest
    ensures ParseRest(rest, o).outDir == o.outDir
    decreases |rest|
  {
    if |rest| > 0 {
      assert forall a :: a in rest <==> a == rest[0] || a in rest[1..];
      if rest[0] == "--stats" {
        FlagsWithoutOutdir(rest[1..], o.(printStats := true));
      } else if rest[0] == "--validate" {
        FlagsWithoutOutdir(rest[1..], o.(validate := true));
      } else {
        FlagsWithoutOutdir(rest[1..], o);
      }
    }
  }

  /** An "--outdir DIR" pair at the end of the arguments decides the directory, whatever
      the flags before it (which contain no other "--outdir" that could swallow it). */
  lemma {:induction false} LastOutdirWins(before: seq<string>, dir: string, o: Options)
    requires forall k :: 0 <= k < |before| ==> before[k] != "--outdir"
    ensures ParseRest(before + ["--outdir", dir], o).outDir == WithSeparator(dir)
    decreases |before|
  {
    if |before| == 0 {
      assert ["--outdir", dir][2..] == [];
    } else {
      var rest := before + ["--outdir", dir];
      assert rest[0] == before[0] && rest[1..] == before[1..] + ["--outdir", dir];
      var o1 := if before[0] == "--stats" then o.(printStats := true)
                else if before[0] == "--validate" then o.(validate := true)
                else o;
      LastOutdirWins(before[1..], dir, o1);
    }
  }

  /** A later "--outdir" pair overrides an earlier one, whatever flags lie between. */
  lemma LaterOutdirOverrides(d1: string, mid: seq<string>, d2: string, o: Options)
    requires forall k :: 0 <= k < |mid| ==> mid[k] != "--outdir"
    ensures ParseRest(["--outdir", d1] + mid + ["--outdir", d2], o).outDir == WithSeparator(d2)
  {
    var args := ["--outdir", d1] + mid + ["--outdir", d2];
    assert args[2..] == mid + ["--outdir", d2];
    LastOutdirWins(mid, d2, o.(outDir := WithSeparator(d1)));
  }

  /** The value after "--outdir" is taken as a directory even when it looks like a flag. */
  lemma OutdirConsumesItsValue(program: string, input: string)
    ensures var o := ParseCommandLine([program, input, "--outdir", "--stats"], "");
      o.outDir == "--stats/" && !o.printStats
  {
    var rest := ["--outdir", "--stats"];
    assert [program, input, "--outdir", "--stats"][2..] == rest;
    assert rest[2..] == [];
  }
}
