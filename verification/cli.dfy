/** The command-line entry point `main`, from the moment the argument
    parser has finished: the parser's own exit, the missing command, and
    the dispatch of `greet` and `sum` to the library functions with their
    output and exit code. What the program writes is returned as text
    instead of being printed. */
module Cli {
  import opened Wrappers
  import opened Text
  import opened Core

  /** What the argument parser produced. `ParserExited` is the parser
      ending the run itself (a usage error, or `--help`), carrying the code
      it exits with and what it has already written; `SumCmd` numbers are
      the arguments after conversion to numbers. */
  datatype Parsed =
    | ParserExited(code: Option<int>, out: string, err: string)
    | NoCommand
    | GreetCmd(name: string)
    | SumCmd(numbers: seq<real>)

  /** The observable result of one run: both output streams and the exit code. */
  datatype Outcome = Outcome(stdout: string, stderr: string, exitCode: int)

  /** The exit code the argument parser uses for a usage error. */
  const UsageErrorCode: int := 2

  const ErrorPrefix: string := "Error: "
  const SumPrefix: string := "Sum: "

  /** Python's `print(s)`: the text followed by a newline. */
  function Println(s: string): (line: string)
    ensures |line| == |s| + 1 && line[..|s|] == s && line[|s|] == '\n'
  {
    s + "\n"
  }

  /** Reports a library result: on success its rendering on standard
      output and exit 0; on failure "Error: " and the message on standard
      error and exit 1. */
  function Report<T>(r: Result<T, string>, render: T -> string): (o: Outcome)
    ensures r.Success? <==> o.exitCode == 0
    ensures r.Failure? <==> o.exitCode == 1
    ensures r.Success? ==> o.stdout == Println(render(r.value)) && o.stderr == []
    ensures r.Failure? ==> o.stdout == [] && o.stderr == Println(ErrorPrefix + r.error)
  {
    match r
    case Success(v) => Outcome(Println(render(v)), "", 0)
    case Failure(msg) => Outcome("", Println(ErrorPrefix + msg), 1)
  }

  /** `main(argv)` after `parse_args`. `help` is the parser's help text and
      `formatNumber` renders a number as Python's `str` of a float does. */
  function Main(args: Parsed, help: string, formatNumber: real -> string): (o: Outcome)
    ensures args.ParserExited? ==> o.stdout == args.out && o.stderr == args.err
    ensures args.ParserExited? && args.code.None? ==> o.exitCode == 0
    ensures args.ParserExited? && args.code.Some? ==> o.exitCode == args.code.value
    ensures args.NoCommand? ==> o == Outcome(help, "", 1)
    ensures args.GreetCmd? ==> (o.exitCode == 0 <==> !AllWhitespace(args.name))
    ensures args.SumCmd? ==> (o.exitCode == 0 <==> args.numbers != [])
    ensures !args.ParserExited? ==> o.exitCode == 0 || o.exitCode == 1
  {
    match args
    case ParserExited(code, out, err) => Outcome(out, err, code.ValueOr(0))
    case NoCommand => Outcome(help, "", 1)
    case GreetCmd(name) => Report(Greeting(name), (g: string) => g)
    case SumCmd(numbers) => Report(CalculateSum(numbers), (v: real) => SumPrefix + formatNumber(v))
  }

  /** A usage error from the parser leaves the run with exit code 2, and
      only the parser can end a run with a code other than 0 or 1. */
  lemma UsageErrorsAreTheParsers(args: Parsed, help: string, formatNumber: real -> string)
    ensures args.ParserExited? && args.code == Some(UsageErrorCode) ==>
              Main(args, help, formatNumber).exitCode == UsageErrorCode
    ensures Main(args, help, formatNumber).exitCode !in {0, 1} ==> args.ParserExited?
  {
  }

  /** `greet`: a valid name prints the greeting of the stripped name and
      exits 0; an empty or whitespace-only name prints the error and exits 1. */
  lemma MainGreet(name: string, help: string, formatNumber: real -> string)
    ensures !AllWhitespace(name) ==>
              Main(GreetCmd(name), help, formatNumber) == Outcome(Println(Salutation + Strip(name) + "!"), "", 0)
    ensures AllWhitespace(name) ==>
              Main(GreetCmd(name), help, formatNumber) == Outcome("", Println(ErrorPrefix + EmptyNameMessage), 1)
  {
    GreetingIsSalutationOfStrip(name);
    StripEmptyIff(name);
  }

  /** `sum`: a non-empty list prints "Sum: " and the formatted total and
      exits 0; the empty list prints the error and exits 1. */
  lemma MainSum(numbers: seq<real>, help: string, formatNumber: real -> string)
    ensures numbers != [] ==>
              Main(SumCmd(numbers), help, formatNumber) == Outcome(Println(SumPrefix + formatNumber(Total(numbers))), "", 0)
    ensures numbers == [] ==>
              Main(SumCmd(numbers), help, formatNumber) == Outcome("", Println(ErrorPrefix + EmptyListMessage), 1)
  {
  }

  /** The parser accepts `sum` only with at least one number, so a parsed
      `sum` always succeeds: its error branch is unreachable. */
  lemma ParsedSumNeverFails(numbers: seq<real>, help: string, formatNumber: real -> string)
    requires |numbers| > 0
    ensures Main(SumCmd(numbers), help, formatNumber).exitCode == 0
    ensures Main(SumCmd(numbers), help, formatNumber).stderr == []
  {
  }

  /** The text written without the final newline `print` adds. */
  function Unline(s: string): string {
    if |s| > 0 && s[|s| - 1] == '\n' then s[..|s| - 1] else s
  }

  /** Dropping the final newline undoes `print`. */
  lemma UnlineInvertsPrintln(s: string)
    ensures Unline(Println(s)) == s
  {
  }

  /** Reads a run's library result back from what it wrote: standard
      output on exit 0, otherwise the message after "Error: ". */
  function ReadBack(o: Outcome): Result<string, string> {
    if o.exitCode == 0 then
      Success(Unline(o.stdout))
    else
      var line := Unline(o.stderr);
      if |line| >= |ErrorPrefix| && line[..|ErrorPrefix|] == ErrorPrefix then
        Failure(line[|ErrorPrefix|..])
      else
        Failure(line)
  }

  /** Reading back what `Report` wrote gives the reported result, with a
      success replaced by its rendering. */
  lemma ReadBackInvertsReport<T>(r: Result<T, string>, render: T -> string)
    ensures ReadBack(Report(r, render))
            == match r
               case Success(v) => Success(render(v))
               case Failure(e) => Failure(e)
  {
    var o := Report(r, render);
    if r.Failure? {
      var line := ErrorPrefix + r.error;
      assert o.stderr == Println(line);
      assert Unline(o.stderr) == line;
      assert line[..|ErrorPrefix|] == ErrorPrefix;
      assert line[|ErrorPrefix|..] == r.error;
    } else {
      assert Unline(o.stdout) == render(r.value);
    }
  }

  /** For a parsed command, the exit code is 0 exactly when the library
      function succeeds and 1 when it fails, and the output carries the
      library result without loss: reading it back recovers that result. */
  lemma MainReportsCoreResult(args: Parsed, help: string, formatNumber: real -> string)
    requires args.GreetCmd? || args.SumCmd?
    ensures var o := Main(args, help, formatNumber);
            && (args.GreetCmd? ==> (o.exitCode == 0 <==> Greeting(args.name).Success?))
            && (args.SumCmd? ==> (o.exitCode == 0 <==> CalculateSum(args.numbers).Success?))
            && (o.exitCode == 0 || o.exitCode == 1)
    ensures args.GreetCmd? ==> ReadBack(Main(args, help, formatNumber)) == Greeting(args.name)
    ensures args.SumCmd? ==>
              ReadBack(Main(args, help, formatNumber))
              == match CalculateSum(args.numbers)
                 case Success(v) => Success(SumPrefix + formatNumber(v))
                 case Failure(e) => Failure(e)
  {
    if args.GreetCmd? {
      ReadBackInvertsReport(Greeting(args.name), (g: string) => g);
      match Greeting(args.name)
      case Success(g) =>
      case Failure(e) =>
    } else {
      ReadBackInvertsReport(CalculateSum(args.numbers), (v: real) => SumPrefix + formatNumber(v));
    }
  }

  /** `greet World`, as the package's tests run it. */
  lemma MainGreetExample(help: string, formatNumber: real -> string)
    ensures Main(GreetCmd("World"), help, formatNumber) == Outcome("Hello, World!\n", "", 0)
  {
    GreetingWorldExample();
    assert Println("Hello, World!") == "Hello, World!\n";
  }

  /** `greet ""`, as the package's tests run it. */
  lemma MainGreetEmptyExample(help: string, formatNumber: real -> string)
    ensures Main(GreetCmd(""), help, formatNumber) == Outcome("", "Error: Name cannot be empty\n", 1)
  {
    MainGreet("", help, formatNumber);
    assert Println(ErrorPrefix + EmptyNameMessage) == "Error: Name cannot be empty\n";
  }

  /** `sum 1 2 3`, as the package's tests run it. */
  lemma MainSumExample(help: string, formatNumber: real -> string)
    ensures Main(SumCmd([1.0, 2.0, 3.0]), help, formatNumber) == Outcome("Sum: " + formatNumber(6.0) + "\n", "", 0)
  {
    CalculateSumExamples();
  }

  /** A run with no sub-command writes the help text and exits 1. */
  lemma MainNoCommandExample(help: string, formatNumber: real -> string)
    ensures Main(NoCommand, help, formatNumber) == Outcome(help, "", 1)
  {
  }

  /** A usage error (an unknown command, a missing argument, a value that
      is not a number) keeps the parser's message on standard error and
      exits 2. */
  lemma MainUsageErrorExample(usage: string, help: string, formatNumber: real -> string)
    ensures Main(ParserExited(Some(UsageErrorCode), "", usage), help, formatNumber) == Outcome("", usage, 2)
  {
  }
}
