# Greeting and sum command-line utility, modelled in Dafny

The modelled program is a small Python package with three library functions
and a command-line entry point:

- `greeting(name)` rejects an empty or whitespace-only name with
  `ValueError("Name cannot be empty")`, and otherwise returns
  `"Hello, " + name.strip() + "!"`.
- `calculate_sum(numbers)` rejects the empty list with
  `ValueError("Cannot calculate sum of empty list")`, and otherwise returns
  `sum(numbers)`.
- `is_even(number)` is `number % 2 == 0`.
- `main(argv)` runs the argument parser and then dispatches:
  - if the parser exits, `main` returns its code, or 0 when there is none;
  - with no sub-command, it prints the help text and returns 1;
  - `greet NAME` prints the greeting and returns 0;
  - `sum N...` prints `Sum: <total>` and returns 0;
  - when a library function raises, it prints `Error: <message>` on
    standard error and returns 1.

The project has four modules:

- `Wrappers` (`wrappers.dfy`): `Option` and `Result`. A raised `ValueError`
  is `Failure(message)`.
- `Text` (`text.dfy`): Python's `str.isspace` as an explicit character
  predicate `IsWhitespace`, and `str.strip` as `Strip`, which removes leading
  and then trailing whitespace. `StripsTo(s, i, j)` is an independent
  description of stripping: only whitespace lies outside the cut `s[i..j]`,
  and the kept middle starts and ends with a non-whitespace character.
  `Strip` scans forward past leading whitespace and then backwards over
  trailing whitespace. It meets this description, and every cut that meets
  it gives the same text (`StripUnique`).
- `Core` (`core.dfy`): the three library functions. `Sum` is Python's
  left-to-right accumulation from 0. `Total` is the head-first arithmetic
  sum, and the two are proved equal. `PyMod` is Python's floored `%`.
  `EvenByCounting` is a definition of parity by counting, which `IsEven`
  is proved to agree with.
- `Cli` (`cli.dfy`): the part of `main` that runs after parsing. It works on
  an abstract parse result, `Parsed`, and produces an `Outcome`: the text
  written to standard output, the text written to standard error, and the
  exit code. `print(s)` writes `s + "\n"`. The help text and the way a float
  is rendered are parameters of `Main`. `ReadBack` recovers a library result
  from an `Outcome`, and `ReadBackInvertsReport` shows that reporting a
  result loses nothing.

Numbers are exact `real`s, so a sum of integers and floats is the
mathematical sum. The library raises `ValueError`; `Failure` keeps only its
message.

## Model

| member | source | states |
|---|---|---|
| `Text.ScanLeading` | src/example_package/main.py:26 | the scan stops at the first non-whitespace character at or after its start, or at the end, and passes only whitespace |
| `Text.ScanTrailing` | src/example_package/main.py:26 | the scan backwards stops just after the last non-whitespace character above its lower bound, or at that bound, and passes only whitespace |
| `Text.StripBounds` | src/example_package/main.py:26 | the cut `strip` makes leaves only whitespace outside it and a middle that is empty or starts and ends with a non-whitespace character |
| `Text.Strip` | src/example_package/main.py:26 | `name.strip()` is a slice of the name with only whitespace outside it and no whitespace at either end of it |
| `Text.StripsToUnique` | src/example_package/main.py:26 | two cuts that both leave only whitespace outside and a trimmed middle give the same middle |
| `Text.StripUnique` | src/example_package/main.py:26 | any cut with only whitespace outside and a trimmed middle is exactly what `strip` returns |
| `Text.StripIsTrimmed` | src/example_package/main.py:26 | a stripped text neither starts nor ends with whitespace |
| `Text.StripTrimmedIsIdentity` | src/example_package/main.py:26 | a text with no whitespace at either end is returned unchanged |
| `Text.StripNoWhitespaceIsIdentity` | tests/test_main.py:36-45 | a text containing no whitespace at all, such as "123" or "special@chars", is returned unchanged |
| `Text.StripIdempotent` | src/example_package/main.py:26 | stripping twice is the same as stripping once |
| `Text.StripEmptyIff` | src/example_package/main.py:23 | stripping gives the empty text exactly when the text is empty or all whitespace |
| `Text.StripsToPadded` | src/example_package/main.py:26 | adding whitespace around a text moves its stripping cut by the length of the added prefix and keeps the same middle |
| `Text.StripIgnoresPadding` | tests/test_main.py:21-24 | whitespace added on either side does not change the stripped text |
| `Core.Greeting` | src/example_package/main.py:23-26 | fails exactly when the name is empty or all whitespace, and then with "Name cannot be empty"; on success the result is "Hello, ", then a non-empty whitespace-free-ended slice of the name with only whitespace around it, then "!" |
| `Core.GreetedName` | src/example_package/main.py:26 | a text has the greeting shape exactly when it starts with "Hello, " and ends with "!", and then it is rebuilt from the name read out of it |
| `Core.GreetedNameOfSalutation` | src/example_package/main.py:26 | reading the name out of "Hello, " + x + "!" gives back x |
| `Core.GreetingEmbedsStrippedName` | src/example_package/main.py:26 | a successful greeting embeds exactly the stripped name, which is non-empty and has no whitespace at either end |
| `Core.GreetingIsSalutationOfStrip` | src/example_package/main.py:23-26 | greeting succeeds exactly when the stripped name is non-empty, and the result is then "Hello, " + stripped name + "!" |
| `Core.GreetingInjective` | src/example_package/main.py:23-26 | any two names give the same greeting result exactly when they strip to the same text |
| `Core.GreetingIgnoresSurroundingWhitespace` | tests/test_main.py:21-24 | greeting the stripped name, or the name padded with more whitespace, is the same as greeting the name |
| `Core.GreetingPassesTrimmedName` | tests/test_main.py:36-45 | a non-empty name without whitespace at either end is greeted exactly as given |
| `Core.GreetingWorldExample` | tests/test_main.py:11-14 | "World" is greeted as "Hello, World!" |
| `Core.GreetingPaddedExample` | tests/test_main.py:21-24 | "  Python  " is greeted as "Hello, Python!" |
| `Core.GreetingRejectExamples` | tests/test_main.py:26-34 | "" and "   " both fail with "Name cannot be empty" |
| `Core.SumAppend` | src/example_package/main.py:54 | the sum of a concatenation is the sum of the sums of its parts |
| `Core.SumIsTotal` | src/example_package/main.py:54 | accumulating left to right from 0 gives the head-first arithmetic sum |
| `Core.CalculateSum` | src/example_package/main.py:51-54 | fails exactly on the empty list, and then with "Cannot calculate sum of empty list"; otherwise succeeds with the arithmetic sum of the elements |
| `Core.CalculateSumFacts` | tests/test_main.py:66-69 | a single number sums to itself, and the sum of two non-empty lists joined is the sum of their sums |
| `Core.CalculateSumExamples` | tests/test_main.py:51-96 | the fixed lists sum to 15, 6, 100, 7, 6.5, 42, -6, 0, 5 and 0, and the empty list fails |
| `Core.PyMod` | src/example_package/main.py:74 | Python's `%` has the sign of the divisor, is the remainder of Python's floor division (`a == b * (a // b) + a % b`), is zero exactly when Dafny's is, and equals Dafny's for a positive divisor |
| `Core.IsEvenMatchesCounting` | src/example_package/main.py:74 | `is_even` agrees with parity by counting for every integer: 0 is even, each step flips parity, and a negative number has the parity of its opposite |
| `Core.IsEvenIffDouble` | src/example_package/main.py:74 | `is_even` holds exactly of multiples of two |
| `Core.IsEvenAlternatesAndIsSymmetric` | tests/test_main.py:118-143 | neighbouring integers have opposite parity, and a number and its negation have the same parity |
| `Core.IsEvenExamples` | tests/test_main.py:102-143 | the fixed even and odd inputs, including 0 and negatives, are classified as the tests expect |
| `Cli.Println` | src/example_package/cli.py:49 | a printed line is the text followed by one newline |
| `Cli.Report` | src/example_package/cli.py:46-58 | a success writes its rendering to standard output only and exits 0; a failure writes "Error: " + message to standard error only and exits 1 |
| `Cli.Main` | src/example_package/cli.py:36-58 | a parser exit passes through its output and code, or 0 when there is no code; no command gives the help text and exit 1; `greet` exits 0 exactly when the name is not all whitespace; `sum` exits 0 exactly when the list is non-empty; every parsed command exits 0 or 1 |
| `Cli.UsageErrorsAreTheParsers` | src/example_package/cli.py:36-40 | a parser usage error exits with 2, and only the parser can produce an exit code other than 0 or 1 |
| `Cli.MainGreet` | src/example_package/cli.py:47-49 | a valid name writes "Hello, " + stripped name + "!" and a newline, and exits 0; an invalid name writes "Error: Name cannot be empty" and a newline to standard error, and exits 1 |
| `Cli.MainSum` | src/example_package/cli.py:50-58 | a non-empty list writes "Sum: " + the rendered total and a newline, and exits 0; the empty list writes the error line and exits 1 |
| `Cli.ParsedSumNeverFails` | src/example_package/cli.py:34 | with the at-least-one-number rule of the parser, `sum` always exits 0 with nothing on standard error |
| `Cli.UnlineInvertsPrintln` | src/example_package/cli.py:49 | dropping the final newline undoes `print` |
| `Cli.ReadBackInvertsReport` | src/example_package/cli.py:46-58 | reading back the streams and exit code that reporting a result writes gives that result, with a success replaced by its printed rendering and a failure keeping its message |
| `Cli.MainReportsCoreResult` | src/example_package/cli.py:46-58 | for `greet` and `sum`, exit 0 means the library function succeeded and exit 1 means it failed, and reading the output back gives that library result |
| `Cli.MainGreetExample` | tests/test_cli.py:11-17 | `greet World` writes "Hello, World!" and exits 0 |
| `Cli.MainGreetEmptyExample` | tests/test_cli.py:27-33 | `greet ""` writes "Error: Name cannot be empty" to standard error and exits 1 |
| `Cli.MainSumExample` | tests/test_cli.py:39-45 | `sum 1 2 3` writes "Sum: " + the rendering of 6 and a newline, and exits 0 |
| `Cli.MainNoCommandExample` | tests/test_cli.py:102-109 | a run with no command writes the help text to standard output and exits 1 |
| `Cli.MainUsageErrorExample` | tests/test_cli.py:111-141 | a usage error keeps the parser's message on standard error and exits 2 |

## Left out

- Argument parsing is not modelled: sub-command recognition, the usage and help texts, the "invalid choice" and "required" messages, and the conversion of arguments to floats (src/example_package/cli.py:22-34). `Main` takes the parse result as input. The help text is an opaque parameter.
- `Parsed` has no case for a command other than `greet` or `sum`. The parser only accepts those two, so the branch of `main` that returns 0 without printing anything cannot be reached.
- `Parsed.ParserExited` carries an integer code or no code. A `SystemExit` with a non-integer code, where `int(e.code)` could itself raise, is not modelled because the parser never produces one.
- Floating point is not modelled: IEEE rounding (the 0.1 + 0.2 + 0.3 case), Python's float rendering (`6.0`), and the non-finite values. Converting arguments with `float` (src/example_package/cli.py:34) accepts "inf", "-inf" and "nan" and turns an overflowing literal such as "1e999" into infinity, and a sum can itself overflow to infinity or give NaN (`sum inf -inf` prints `Sum: nan` and exits 0). Numbers are exact reals, which hold none of these, and rendering is the parameter `formatNumber`.
- `Core.CalculateSum`: does not keep the int-versus-float type of the result, because numbers are a single exact type here.
- `Cli.Main`: assumes that `print` never fails. Both `print` calls (src/example_package/cli.py:49 and 52) are inside the `try`, so a failure to write (an unencodable character, a broken stream) is reported as `Error: …` on standard error with exit 1. Writing to the real streams is not modelled.
- Python text may contain lone surrogates (for example from an undecodable command-line byte), which Dafny's `string` cannot represent, so such names are not modelled.
- Apart from write failures, only `ValueError` from the library functions can reach the `except Exception` handler, and it is the only exception modelled.
- Real I/O is not modelled: writing to the actual streams, and `sys.exit` at src/example_package/cli.py:61-62. Output is returned as text.
- `__init__.py` only re-exports names and a version string. The test fixtures in `tests/conftest.py` hold no logic.
