/** The command-line validator of the tool: only `-i <file>` and
    `-o <file>` are accepted, each at most once and each followed by its
    value; it answers 0 or 1 and writes the values it reads to the input and
    output file names it is given by reference. */
module Options {

  import opened Wrappers
  import opened CStd

  /** What `parseOpts` returns and what it leaves in `sInput` and `sOutput`. */
  datatype Parsed = Parsed(ret: int, sInput: string, sOutput: string)

  /** The option letter of an argument shaped `-x` (a C string of length two
      starting with a minus sign). */
  function OptionLetter(a: string): (r: Option<char>)
    ensures r.Some? <==> |CStr(a)| == 2 && a[0] == '-'
    ensures r.Some? ==> CStr(a) == ['-', r.value]
  {
    if |CStr(a)| == 2 && a[0] == '-' then Some(a[1]) else None
  }

  /** The reference reading of `parseOpts`, over the arguments after
      `argv[0]`: `inputSet` and `outputSet` say which options were seen. */
  function Scan(args: seq<string>, inputSet: bool, outputSet: bool, sInput: string, sOutput: string): Parsed
    decreases |args|
  {
    if args == [] then Parsed(0, sInput, sOutput)
    else if OptionLetter(args[0]).None? || |args| < 2 then Parsed(1, sInput, sOutput)
    else if OptionLetter(args[0]) == Some('i') then
      if inputSet then Parsed(1, sInput, sOutput)
      else Scan(args[2..], true, outputSet, CStr(args[1]), sOutput)
    else if OptionLetter(args[0]) == Some('o') then
      if outputSet then Parsed(1, sInput, sOutput)
      else Scan(args[2..], inputSet, true, sInput, CStr(args[1]))
    else Parsed(1, sInput, sOutput)
  }

  /** The arguments after the program name. */
  function Arguments(argv: seq<string>): seq<string>
  {
    if argv == [] then [] else argv[1..]
  }

  /** `parseOpts` on `argv`, with `sInput` and `sOutput` holding `input0` and
      `output0` on entry; `argv[0]` is the program name and is skipped. */
  function ParseOptsSpec(argv: seq<string>, input0: string, output0: string): Parsed
  {
    Scan(Arguments(argv), false, false, input0, output0)
  }

  /** `parseOpts`: a loop over `argv` from index 1 that reads an option and
      its value at each step. */
  method ParseOpts(argv: seq<string>, input0: string, output0: string) returns (ret: int, sInput: string, sOutput: string)
    ensures Parsed(ret, sInput, sOutput) == ParseOptsSpec(argv, input0, output0)
  {
    ret := 0;
    sInput, sOutput := input0, output0;
    var inputIsSet, outputIsSet := false, false;
    var i := 1;
    ghost var args := Arguments(argv);
    while i < |argv| && ret == 0
      invariant 1 <= i && i - 1 <= |args| && (argv != [] ==> i <= |argv|)
      invariant ret == 0 ==> ParseOptsSpec(argv, input0, output0) == Scan(args[i - 1..], inputIsSet, outputIsSet, sInput, sOutput)
      invariant ret != 0 ==> ParseOptsSpec(argv, input0, output0) == Parsed(ret, sInput, sOutput)
      decreases |argv| - i, ret == 0
    {
      var letter := OptionLetter(argv[i]);
      if letter.Some? && i < |argv| - 1 {
        if letter.value == 'i' {
          if inputIsSet {
            return 1, sInput, sOutput;
          }
          sInput := CStr(argv[i + 1]);
          i := i + 1;
          inputIsSet := true;
        } else if letter.value == 'o' {
          if outputIsSet {
            return 1, sInput, sOutput;
          }
          sOutput := CStr(argv[i + 1]);
          i := i + 1;
          outputIsSet := true;
        } else {
          return 1, sInput, sOutput;
        }
      } else {
        ret := 1;
        break;
      }
      i := i + 1;
    }
  }

  /** `a` is the option `-c`. */
  predicate IsOption(a: string, c: char)
  {
    OptionLetter(a) == Some(c)
  }

  /** The argument lists, after `argv[0]`, that `parseOpts` accepts: nothing,
      one of the two options with its value, or both options, in either
      order, each with its value. */
  predicate Accepted(args: seq<string>)
  {
    || args == []
    || (|args| == 2 && (IsOption(args[0], 'i') || IsOption(args[0], 'o')))
    || (|args| == 4 && ((IsOption(args[0], 'i') && IsOption(args[2], 'o'))
                     || (IsOption(args[0], 'o') && IsOption(args[2], 'i'))))
  }

  /** The value given to option `-c` in an accepted list, or `default` when
      the option is absent. */
  function Given(args: seq<string>, c: char, default: string): string
  {
    if |args| >= 2 && IsOption(args[0], c) then CStr(args[1])
    else if |args| >= 4 && IsOption(args[2], c) then CStr(args[3])
    else default
  }

  /** `parseOpts` answers 0 exactly for the accepted lists; then the input
      and output names hold the values given to `-i` and `-o`, and a name
      whose option is absent keeps what it held. */
  lemma ParseOptsAcceptsExactly(argv: seq<string>, input0: string, output0: string)
    ensures ParseOptsSpec(argv, input0, output0).ret == 0 <==> Accepted(Arguments(argv))
    ensures Accepted(Arguments(argv)) ==>
      ParseOptsSpec(argv, input0, output0) == Parsed(0, Given(Arguments(argv), 'i', input0), Given(Arguments(argv), 'o', output0))
  {
    var args := Arguments(argv);
    if |args| >= 2 && OptionLetter(args[0]).Some? {
      var rest := args[2..];
      var first := OptionLetter(args[0]).value;
      if first == 'i' {
        assert Scan(args, false, false, input0, output0) == Scan(rest, true, false, CStr(args[1]), output0);
      } else if first == 'o' {
        assert Scan(args, false, false, input0, output0) == Scan(rest, false, true, input0, CStr(args[1]));
      }
      if rest == [] {
      } else if |rest| >= 2 && OptionLetter(rest[0]).Some? {
        assert rest[2..] == args[4..];
        var second := OptionLetter(rest[0]).value;
        if first == 'i' && second == 'o' {
          assert Scan(rest, true, false, CStr(args[1]), output0) == Scan(args[4..], true, true, CStr(args[1]), CStr(args[3]));
          ScanAfterBoth(args[4..], CStr(args[1]), CStr(args[3]));
        } else if first == 'o' && second == 'i' {
          assert Scan(rest, false, true, input0, CStr(args[1])) == Scan(args[4..], true, true, CStr(args[3]), CStr(args[1]));
          ScanAfterBoth(args[4..], CStr(args[3]), CStr(args[1]));
        }
      } else {
        assert !Accepted(args);
      }
    }
  }

  /** Once both options are seen, only the end of the list is accepted. */
  lemma ScanAfterBoth(args: seq<string>, sInput: string, sOutput: string)
    ensures Scan(args, true, true, sInput, sOutput) == Parsed(if args == [] then 0 else 1, sInput, sOutput)
  {
  }

  /** The answer is always 0 or 1. */
  lemma {:induction false} ScanAnswersZeroOrOne(args: seq<string>, inputSet: bool, outputSet: bool, sInput: string, sOutput: string)
    decreases |args|
    ensures Scan(args, inputSet, outputSet, sInput, sOutput).ret in {0, 1}
  {
    if |args| >= 2 && OptionLetter(args[0]).Some? {
      ScanAnswersZeroOrOne(args[2..], true, outputSet, CStr(args[1]), sOutput);
      ScanAnswersZeroOrOne(args[2..], inputSet, true, sInput, CStr(args[1]));
    }
  }

  /** The word after `-i` or `-o` is taken as its value even when it looks
      like an option itself. */
  lemma ValueMayLookLikeAnOption(prog: string, input0: string, output0: string)
    ensures ParseOptsSpec([prog, "-i", "-o"], input0, output0) == Parsed(0, "-o", output0)
  {
    ParseOptsAcceptsExactly([prog, "-i", "-o"], input0, output0);
    assert Arguments([prog, "-i", "-o"]) == ["-i", "-o"];
  }
}
