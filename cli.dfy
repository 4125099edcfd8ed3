/** main.rs: the command line. `QuoteStyle::from_args` takes the style flags
    out of the arguments, and `main` picks the input source by how many
    arguments are left. */
module Cli {
  import opened Events
  import opened Literal

  /** The style a single argument selects, when it is a style flag. */
  function StyleFlag(arg: string): Option<QuoteStyle> {
    if arg == "--single" then Some(Single)
    else if arg == "--raw" then Some(Raw)
    else if arg == "--double" then Some(Double)
    else None
  }

  /** The style in force after `args`: the last style flag among them, and
      Double when there is none. */
  function LastStyle(args: seq<string>): (r: QuoteStyle)
    ensures r != Double ==> exists k :: 0 <= k < |args| && StyleFlag(args[k]) == Some(r)
    decreases |args|
  {
    if args == [] then Double
    else
      match StyleFlag(args[|args| - 1])
      case Some(style) => style
      case None => LastStyle(args[..|args| - 1])
  }

  /** The arguments that are not style flags, in their order. */
  function NonStyleArgs(args: seq<string>): (r: seq<string>)
    ensures forall x :: x in r ==> StyleFlag(x).None?
    decreases |args|
  {
    if args == [] then []
    else
      var last := args[|args| - 1];
      NonStyleArgs(args[..|args| - 1]) + (if StyleFlag(last).Some? then [] else [last])
  }

  /** `QuoteStyle::from_args`: one pass over the arguments; a style flag
      sets the style, anything else is kept. */
  method FromArgs(args: seq<string>) returns (style: QuoteStyle, filtered: seq<string>)
    ensures style == LastStyle(args) && filtered == NonStyleArgs(args)
  {
    style := Double;
    filtered := [];
    var i := 0;
    while i < |args|
      invariant 0 <= i <= |args|
      invariant style == LastStyle(args[..i]) && filtered == NonStyleArgs(args[..i])
    {
      assert args[..i + 1][..i] == args[..i];
      var arg := args[i];
      if arg == "--single" {
        style := Single;
      } else if arg == "--raw" {
        style := Raw;
      } else if arg == "--double" {
        style := Double;
      } else {
        filtered := filtered + [arg];
      }
      i := i + 1;
    }
    assert args[..|args|] == args;
  }

  /** Without a style flag the style is Double. */
  lemma {:induction false} DefaultIsDouble(args: seq<string>)
    requires forall k :: 0 <= k < |args| ==> StyleFlag(args[k]).None?
    ensures LastStyle(args) == Double
    decreases |args|
  {
    if args != [] {
      DefaultIsDouble(args[..|args| - 1]);
    }
  }

  /** The last style flag wins: flags before it and other arguments after
      it do not matter. */
  lemma {:induction false} LastFlagWins(args: seq<string>, k: nat)
    requires k < |args| && StyleFlag(args[k]).Some?
    requires forall j :: k < j < |args| ==> StyleFlag(args[j]).None?
    ensures LastStyle(args) == StyleFlag(args[k]).value
    decreases |args|
  {
    if k < |args| - 1 {
      var init := args[..|args| - 1];
      assert init[k] == args[k];
      LastFlagWins(init, k);
    }
  }

  /** Filtering distributes over concatenation. */
  lemma {:induction false} NonStyleArgsAppend(a: seq<string>, b: seq<string>)
    ensures NonStyleArgs(a + b) == NonStyleArgs(a) + NonStyleArgs(b)
    decreases |b|
  {
    if b == [] {
      assert a + b == a;
    } else {
      var init := b[..|b| - 1];
      assert (a + b)[..|a + b| - 1] == a + init;
      NonStyleArgsAppend(a, init);
    }
  }

  /** An argument is kept exactly when it is not a style flag; the flags
      are all removed. */
  lemma {:induction false} KeptIffNotFlag(args: seq<string>, x: string)
    ensures x in NonStyleArgs(args) <==> x in args && StyleFlag(x).None?
    decreases |args|
  {
    if args != [] {
      var init := args[..|args| - 1];
      KeptIffNotFlag(init, x);
      assert args == init + [args[|args| - 1]];
    }
  }

  /** A style flag inserted anywhere leaves the other arguments as they
      were: the flags do not count towards the dispatch in `main`. */
  lemma FlagDoesNotShift(before: seq<string>, flag: string, after: seq<string>)
    requires StyleFlag(flag).Some?
    ensures NonStyleArgs(before + [flag] + after) == NonStyleArgs(before + after)
  {
    NonStyleArgsAppend(before + [flag], after);
    NonStyleArgsAppend(before, [flag]);
    NonStyleArgsAppend(before, after);
    assert [flag][..0] == [];
  }

  /** Arguments without a style flag are kept as they are, in their order. */
  lemma {:induction false} NoFlagsKept(args: seq<string>)
    requires forall k :: 0 <= k < |args| ==> StyleFlag(args[k]).None?
    ensures NonStyleArgs(args) == args
    decreases |args|
  {
    if args != [] {
      NoFlagsKept(args[..|args| - 1]);
    }
  }

  /** One argument is kept or dropped on its own. */
  lemma NonStyleArgsOne(x: string)
    ensures NonStyleArgs([x]) == if StyleFlag(x).Some? then [] else [x]
  {
    assert [x][..0] == [];
  }

  /** The first case of the argument-parsing test of main.rs: the flag sets
      the style and is removed, the file name stays second. */
  lemma SingleFileExample()
    ensures LastStyle(["program", "--single", "file.txt"]) == Single
    ensures NonStyleArgs(["program", "--single", "file.txt"]) == ["program", "file.txt"]
  {
    var args := ["program", "--single", "file.txt"];
    LastFlagWins(args, 1);
    assert args == ["program"] + ["--single"] + ["file.txt"];
    NonStyleArgsAppend(["program"] + ["--single"], ["file.txt"]);
    NonStyleArgsAppend(["program"], ["--single"]);
    NonStyleArgsOne("program");
    NonStyleArgsOne("--single");
    NonStyleArgsOne("file.txt");
  }

  /** The second case: a flag alone leaves only the program name. */
  lemma RawOnlyExample()
    ensures LastStyle(["program", "--raw"]) == Raw
    ensures NonStyleArgs(["program", "--raw"]) == ["program"]
  {
    var args := ["program", "--raw"];
    LastFlagWins(args, 1);
    assert args == ["program"] + ["--raw"];
    NonStyleArgsAppend(["program"], ["--raw"]);
    NonStyleArgsOne("program");
    NonStyleArgsOne("--raw");
  }

  /** The third case: of two flags the last one wins. */
  lemma LastOfTwoExample()
    ensures LastStyle(["program", "--double", "--single"]) == Single
  {
    LastFlagWins(["program", "--double", "--single"], 2);
  }

  /** What `main` does with the arguments left after `from_args`; whether
      stdin is piped is `has_piped_input()`. */
  datatype Action =
    | ReadPiped
    | ReadKeyboard
    | ShowUsage
    | ReadFile(path: string)
    | TooManyArguments

  /** The `match filtered_args.len()` of `main`. */
  function Dispatch(filtered: seq<string>, piped: bool): (r: Action)
    ensures r.ReadPiped? || r.ReadKeyboard? <==> |filtered| == 1
    ensures r.ReadFile? ==> |filtered| == 2 && r.path == filtered[1] && r.path != "-h" && r.path != "--help"
    ensures r.TooManyArguments? <==> |filtered| != 1 && |filtered| != 2
  {
    if |filtered| == 1 then
      if piped then ReadPiped else ReadKeyboard
    else if |filtered| == 2 then
      if filtered[1] == "-h" || filtered[1] == "--help" then ShowUsage
      else ReadFile(filtered[1])
    else TooManyArguments
  }

  /** Each action and the arguments that lead to it. */
  lemma DispatchCases(filtered: seq<string>, piped: bool, path: string)
    ensures Dispatch(filtered, piped) == ReadPiped <==> |filtered| == 1 && piped
    ensures Dispatch(filtered, piped) == ReadKeyboard <==> |filtered| == 1 && !piped
    ensures Dispatch(filtered, piped) == ShowUsage <==>
      |filtered| == 2 && (filtered[1] == "-h" || filtered[1] == "--help")
    ensures Dispatch(filtered, piped) == ReadFile(path) <==>
      |filtered| == 2 && filtered[1] == path && path != "-h" && path != "--help"
    ensures Dispatch(filtered, piped) == TooManyArguments <==> |filtered| != 1 && |filtered| != 2
  {
  }

  /** The program name and a file name read that file whatever the style
      flags around them; only the style changes. */
  lemma FileWithFlags(program: string, flags1: seq<string>, file: string, flags2: seq<string>, piped: bool)
    requires StyleFlag(program).None? && StyleFlag(file).None? && file != "-h" && file != "--help"
    requires forall k :: 0 <= k < |flags1| ==> StyleFlag(flags1[k]).Some?
    requires forall k :: 0 <= k < |flags2| ==> StyleFlag(flags2[k]).Some?
    ensures Dispatch(NonStyleArgs([program] + flags1 + [file] + flags2), piped) == ReadFile(file)
  {
    FlagsAroundFile(program, flags1, file, flags2);
  }

  lemma FlagsAroundFile(program: string, flags1: seq<string>, file: string, flags2: seq<string>)
    requires StyleFlag(program).None? && StyleFlag(file).None?
    requires forall k :: 0 <= k < |flags1| ==> StyleFlag(flags1[k]).Some?
    requires forall k :: 0 <= k < |flags2| ==> StyleFlag(flags2[k]).Some?
    ensures NonStyleArgs([program] + flags1 + [file] + flags2) == [program, file]
  {
    FlagsAfterOne(program, flags1);
    KeptBeforeFlags([program] + flags1, file, flags2);
  }

  /** An argument that is not a style flag, followed by style flags only,
      is appended to what the arguments before it keep. */
  lemma KeptBeforeFlags(before: seq<string>, x: string, flags: seq<string>)
    requires StyleFlag(x).None?
    requires forall k :: 0 <= k < |flags| ==> StyleFlag(flags[k]).Some?
    ensures NonStyleArgs(before + [x] + flags) == NonStyleArgs(before) + [x]
  {
    AllFlagsRemoved(flags);
    NonStyleArgsOne(x);
    NonStyleArgsAppend(before, [x]);
    NonStyleArgsAppend(before + [x], flags);
  }

  /** An argument that is not a style flag, followed by style flags only,
      is all that is kept. */
  lemma FlagsAfterOne(x: string, flags: seq<string>)
    requires StyleFlag(x).None?
    requires forall k :: 0 <= k < |flags| ==> StyleFlag(flags[k]).Some?
    ensures NonStyleArgs([x] + flags) == [x]
  {
    AllFlagsRemoved(flags);
    NonStyleArgsOne(x);
    NonStyleArgsAppend([x], flags);
  }

  /** Nothing is left of a list of style flags. */
  lemma {:induction false} AllFlagsRemoved(flags: seq<string>)
    requires forall k :: 0 <= k < |flags| ==> StyleFlag(flags[k]).Some?
    ensures NonStyleArgs(flags) == []
    decreases |flags|
  {
    if flags != [] {
      AllFlagsRemoved(flags[..|flags| - 1]);
    }
  }
}
