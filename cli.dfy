/** The argument parser of the unpack command: the image name, an optional
    output directory and an optional `--data-format` flag. */
module Cli {

  datatype UnpackArgs = UnpackArgs(filename: string, outputDir: string, dataFormat: string)

  datatype ArgsError =
    | InsufficientArguments
    | MissingFormatValue
    | InvalidFormat(value: string)

  const FormatFlag := "--data-format"

  /** The payload formats the command line accepts. The asciihex format,
      although the unpacker can write it, is not among them. */
  predicate CliFormat(f: string)
  {
    f == "binary" || f == "hex" || f == "quoted"
  }

  /** The first non-empty string of `fill` when `out` is empty: how a run of
      plain arguments sets the output directory. */
  function FirstFill(out: string, fill: seq<string>): string
    decreases |fill|
  {
    if out != "" || fill == [] then out else FirstFill(fill[0], fill[1..])
  }

  /** The parse of args[i..] given the output directory and format chosen so
      far. */
  function ParseFrom(args: seq<string>, i: nat, out: string, format: string): (r: OptionsParse)
    decreases |args| - i
  {
    if i >= |args| then Ok(out, format)
    else if args[i] == FormatFlag then
      if i + 1 >= |args| then Err(MissingFormatValue)
      else if !CliFormat(args[i + 1]) then Err(InvalidFormat(args[i + 1]))
      else ParseFrom(args, i + 2, out, args[i + 1])
    else ParseFrom(args, i + 1, if out == "" then args[i] else out, format)
  }

  /** The parse of the options, before the image name is attached. */
  datatype OptionsParse = Ok(outputDir: string, dataFormat: string) | Err(error: ArgsError)

  /** ParseUnpackArgs: args[0] is the image, the rest are options. */
  function ParseSpec(args: seq<string>): (r: Outcome)
  {
    if |args| < 1 then Failed(InsufficientArguments)
    else match ParseFrom(args, 1, "", "binary")
      case Ok(out, format) => Parsed(UnpackArgs(args[0], out, format))
      case Err(e) => Failed(e)
  }

  datatype Outcome = Parsed(value: UnpackArgs) | Failed(error: ArgsError)

  /** ParseUnpackArgs as written: one pass over the options, the flag
      consuming the argument after it. */
  method ParseUnpackArgs(args: seq<string>) returns (r: Outcome)
    ensures r == ParseSpec(args)
  {
    if |args| < 1 {
      return Failed(InsufficientArguments);
    }
    var filename := args[0];
    var outputDir := "";
    var dataFormat := "binary";
    var i := 1;
    while i < |args|
      invariant 1 <= i <= |args| + 1
      invariant ParseFrom(args, i, outputDir, dataFormat) == ParseFrom(args, 1, "", "binary")
      decreases |args| - i
    {
      if args[i] == FormatFlag {
        if i + 1 >= |args| {
          return Failed(MissingFormatValue);
        }
        dataFormat := args[i + 1];
        if !CliFormat(dataFormat) {
          return Failed(InvalidFormat(dataFormat));
        }
        i := i + 1;
      } else if outputDir == "" {
        outputDir := args[i];
      }
      i := i + 1;
    }
    return Parsed(UnpackArgs(filename, outputDir, dataFormat));
  }

  predicate NoFlag(s: seq<string>)
  {
    forall k :: 0 <= k < |s| ==> s[k] != FormatFlag
  }

  /** A run of plain arguments only fills the output directory. */
  lemma {:induction false} PlainArgs(args: seq<string>, i: nat, j: nat, out: string, format: string)
    requires i <= j <= |args| && NoFlag(args[i..j])
    ensures ParseFrom(args, i, out, format) == ParseFrom(args, j, FirstFill(out, args[i..j]), format)
    decreases j - i
  {
    if i < j {
      assert args[i..j][0] == args[i] != FormatFlag;
      assert args[i..j][1..] == args[i + 1..j];
      PlainArgs(args, i + 1, j, if out == "" then args[i] else out, format);
      assert FirstFill(out, args[i..j]) == FirstFill(if out == "" then args[i] else out, args[i + 1..j]);
    }
  }

  lemma NoArgumentsFail()
    ensures ParseSpec([]) == Failed(InsufficientArguments)
  {
  }

  /** Without the flag, the format is binary and the output directory is
      the first non-empty option, or empty. */
  lemma DefaultFormat(args: seq<string>)
    requires |args| >= 1 && NoFlag(args[1..])
    ensures ParseSpec(args) == Parsed(UnpackArgs(args[0], FirstFill("", args[1..]), "binary"))
  {
    assert args[1..|args|] == args[1..];
    PlainArgs(args, 1, |args|, "", "binary");
  }

  /** A flag after any plain options with a valid value selects that value;
      an invalid value is reported; a flag with nothing after it fails. */
  lemma FlagSelectsFormat(f: string, pre: seq<string>, x: string, post: seq<string>)
    requires NoFlag(pre) && NoFlag(post)
    ensures CliFormat(x) ==>
      ParseSpec([f] + pre + [FormatFlag, x] + post) == Parsed(UnpackArgs(f, FirstFill(FirstFill("", pre), post), x))
    ensures !CliFormat(x) ==> ParseSpec([f] + pre + [FormatFlag, x] + post) == Failed(InvalidFormat(x))
  {
    var args := [f] + pre + [FormatFlag, x] + post;
    var n := 1 + |pre|;
    assert args[1..n] == pre;
    assert args[n] == FormatFlag && args[n + 1] == x;
    assert args[n + 2..|args|] == post;
    PlainArgs(args, 1, n, "", "binary");
    if CliFormat(x) {
      PlainArgs(args, n + 2, |args|, FirstFill("", pre), x);
    }
  }

  /** With the flag given twice, the second value decides: it is the format
      when valid and an error otherwise. */
  lemma RepeatedFlagLastWins(f: string, pre: seq<string>, x: string, mid: seq<string>, y: string, post: seq<string>)
    requires NoFlag(pre) && NoFlag(mid) && NoFlag(post) && CliFormat(x)
    ensures CliFormat(y) ==>
      ParseSpec([f] + pre + [FormatFlag, x] + mid + [FormatFlag, y] + post)
      == Parsed(UnpackArgs(f, FirstFill(FirstFill(FirstFill("", pre), mid), post), y))
    ensures !CliFormat(y) ==>
      ParseSpec([f] + pre + [FormatFlag, x] + mid + [FormatFlag, y] + post) == Failed(InvalidFormat(y))
  {
    var args := [f] + pre + [FormatFlag, x] + mid + [FormatFlag, y] + post;
    var n1 := 1 + |pre|;
    var n2 := n1 + 2 + |mid|;
    assert args[1..n1] == pre;
    assert args[n1] == FormatFlag && args[n1 + 1] == x;
    assert args[n1 + 2..n2] == mid;
    assert args[n2] == FormatFlag && args[n2 + 1] == y;
    assert args[n2 + 2..|args|] == post;
    TwoFlagsParse(args, n1, n2);
  }

  /** The options of args split at two flags at n1 and n2. */
  lemma TwoFlagsParse(args: seq<string>, n1: nat, n2: nat)
    requires 1 <= n1 && n1 + 2 <= n2 && n2 + 2 <= |args|
    requires args[n1] == FormatFlag && args[n2] == FormatFlag && CliFormat(args[n1 + 1])
    requires NoFlag(args[1..n1]) && NoFlag(args[n1 + 2..n2]) && NoFlag(args[n2 + 2..|args|])
    ensures var out := FirstFill(FirstFill(FirstFill("", args[1..n1]), args[n1 + 2..n2]), args[n2 + 2..|args|]);
      ParseFrom(args, 1, "", "binary")
      == if CliFormat(args[n2 + 1]) then Ok(out, args[n2 + 1]) else Err(InvalidFormat(args[n2 + 1]))
  {
    var o1 := FirstFill("", args[1..n1]);
    var o2 := FirstFill(o1, args[n1 + 2..n2]);
    FirstFlag(args, n1, n2);
    LastFlag(args, n2, o2, args[n1 + 1]);
  }

  /** Up to the second flag: the first flag has set the format. */
  lemma FirstFlag(args: seq<string>, n1: nat, n2: nat)
    requires 1 <= n1 && n1 + 2 <= n2 && n2 + 2 <= |args|
    requires args[n1] == FormatFlag && CliFormat(args[n1 + 1])
    requires NoFlag(args[1..n1]) && NoFlag(args[n1 + 2..n2])
    ensures ParseFrom(args, 1, "", "binary")
      == ParseFrom(args, n2, FirstFill(FirstFill("", args[1..n1]), args[n1 + 2..n2]), args[n1 + 1])
  {
    var x := args[n1 + 1];
    var o1 := FirstFill("", args[1..n1]);
    calc {
      ParseFrom(args, 1, "", "binary");
      == { PlainArgs(args, 1, n1, "", "binary"); }
      ParseFrom(args, n1, o1, "binary");
      == { FlagStep(args, n1, o1, "binary"); }
      ParseFrom(args, n1 + 2, o1, x);
      == { PlainArgs(args, n1 + 2, n2, o1, x); }
      ParseFrom(args, n2, FirstFill(o1, args[n1 + 2..n2]), x);
    }
  }

  /** From a last flag at n: its value decides, the plain arguments after
      it only fill the output directory. */
  lemma LastFlag(args: seq<string>, n: nat, out: string, format: string)
    requires n + 2 <= |args| && args[n] == FormatFlag && NoFlag(args[n + 2..|args|])
    ensures ParseFrom(args, n, out, format)
      == if CliFormat(args[n + 1]) then Ok(FirstFill(out, args[n + 2..|args|]), args[n + 1])
         else Err(InvalidFormat(args[n + 1]))
  {
    FlagStep(args, n, out, format);
    if CliFormat(args[n + 1]) {
      PlainArgs(args, n + 2, |args|, out, args[n + 1]);
    }
  }

  /** The flag at i takes the argument after it as the format. */
  lemma FlagStep(args: seq<string>, i: nat, out: string, format: string)
    requires i + 1 < |args| && args[i] == FormatFlag
    ensures ParseFrom(args, i, out, format)
      == if CliFormat(args[i + 1]) then ParseFrom(args, i + 2, out, args[i + 1]) else Err(InvalidFormat(args[i + 1]))
  {
  }

  lemma TrailingFlagFails(f: string, pre: seq<string>)
    requires NoFlag(pre)
    ensures ParseSpec([f] + pre + [FormatFlag]) == Failed(MissingFormatValue)
  {
    var args := [f] + pre + [FormatFlag];
    assert args[1..1 + |pre|] == pre;
    PlainArgs(args, 1, 1 + |pre|, "", "binary");
  }

  lemma {:induction false} ParseFromFormat(args: seq<string>, i: nat, out: string, format: string)
    requires CliFormat(format)
    ensures ParseFrom(args, i, out, format).Ok? ==> CliFormat(ParseFrom(args, i, out, format).dataFormat)
    decreases |args| - i
  {
    if i < |args| {
      if args[i] == FormatFlag {
        if i + 1 < |args| && CliFormat(args[i + 1]) {
          ParseFromFormat(args, i + 2, out, args[i + 1]);
        }
      } else {
        ParseFromFormat(args, i + 1, if out == "" then args[i] else out, format);
      }
    }
  }

  /** A successful parse keeps the image name and never selects a format
      outside binary, hex and quoted. */
  lemma ParsedArgs(args: seq<string>)
    requires ParseSpec(args).Parsed?
    ensures ParseSpec(args).value.filename == args[0]
    ensures CliFormat(ParseSpec(args).value.dataFormat)
  {
    ParseFromFormat(args, 1, "", "binary");
  }

  lemma AsciiHexRejected(f: string)
    ensures ParseSpec([f, FormatFlag, "asciihex"]) == Failed(InvalidFormat("asciihex"))
  {
    FlagSelectsFormat(f, [], "asciihex", []);
  }
}
