/** The three library functions of the package: `greeting`,
    `calculate_sum` and `is_even`. A raised `ValueError` is a `Failure`
    carrying the exception's message. Numbers are exact reals, so a sum
    of integers and floats is the mathematical sum. */
module Core {
  import opened Wrappers
  import opened Text

  const EmptyNameMessage: string := "Name cannot be empty"
  const EmptyListMessage: string := "Cannot calculate sum of empty list"

  const Salutation: string := "Hello, "

  // ---------------------------------------------------------------------------
  // greeting
  // ---------------------------------------------------------------------------

  /** `greeting(name)`: rejects an empty or whitespace-only name, otherwise
      greets the name with its surrounding whitespace removed. */
  function Greeting(name: string): (r: Result<string, string>)
    ensures r.Failure? <==> AllWhitespace(name)
    ensures r.Failure? ==> r.error == EmptyNameMessage
    ensures r.Success? ==>
              exists i, j :: StripsTo(name, i, j) && i < j && r.value == Salutation + name[i..j] + "!"
  {
    StripEmptyIff(name);
    if |name| == 0 || Strip(name) == [] then
      Failure(EmptyNameMessage)
    else
      Success(Salutation + Strip(name) + "!")
  }

  /** The name a greeting text embeds: what lies between "Hello, " and the
      final "!", or nothing when the text is not shaped like a greeting. */
  function GreetedName(g: string): (n: Option<string>)
    ensures n.Some? <==> |g| >= |Salutation| + 1 && g[..|Salutation|] == Salutation && g[|g| - 1] == '!'
    ensures n.Some? ==> g == Salutation + n.value + "!"
  {
    if |g| >= |Salutation| + 1 && g[..|Salutation|] == Salutation && g[|g| - 1] == '!' then
      Some(g[|Salutation|..|g| - 1])
    else
      None
  }

  /** Reading the name back out of a rendered greeting recovers it. */
  lemma GreetedNameOfSalutation(x: string)
    ensures GreetedName(Salutation + x + "!") == Some(x)
  {
    var g := Salutation + x + "!";
    assert g[..|Salutation|] == Salutation;
    assert g[|Salutation|..|g| - 1] == x;
  }

  /** A successful greeting embeds exactly the stripped name, which is
      non-empty and has no whitespace at either end. */
  lemma GreetingEmbedsStrippedName(name: string)
    requires Greeting(name).Success?
    ensures GreetedName(Greeting(name).value) == Some(Strip(name))
    ensures Strip(name) != [] && Trimmed(Strip(name))
  {
    StripEmptyIff(name);
    StripIsTrimmed(name);
    GreetedNameOfSalutation(Strip(name));
  }

  /** Greeting succeeds exactly when stripping leaves a non-empty name, and
      then it is "Hello, " followed by the stripped name and "!". */
  lemma GreetingIsSalutationOfStrip(name: string)
    ensures Greeting(name).Success? <==> Strip(name) != []
    ensures Greeting(name).Success? ==> Greeting(name).value == Salutation + Strip(name) + "!"
  {
    StripEmptyIff(name);
    if Greeting(name).Success? {
      GreetingEmbedsStrippedName(name);
    }
  }

  /** Two names greet alike exactly when they strip alike. */
  lemma GreetingInjective(a: string, b: string)
    ensures Greeting(a) == Greeting(b) <==> Strip(a) == Strip(b)
  {
    if Greeting(a).Success? { GreetingEmbedsStrippedName(a); }
    if Greeting(b).Success? { GreetingEmbedsStrippedName(b); }
    GreetingIsSalutationOfStrip(a);
    GreetingIsSalutationOfStrip(b);
  }

  /** Surrounding whitespace does not matter: greeting a stripped name is
      greeting the name itself, and so is greeting it padded further. */
  lemma GreetingIgnoresSurroundingWhitespace(name: string, pre: string, post: string)
    requires AllWhitespace(pre) && AllWhitespace(post)
    ensures Greeting(Strip(name)) == Greeting(name)
    ensures Greeting(pre + name + post) == Greeting(name)
  {
    StripIdempotent(name);
    StripIgnoresPadding(pre, name, post);
    GreetingIsSalutationOfStrip(name);
    GreetingIsSalutationOfStrip(Strip(name));
    GreetingIsSalutationOfStrip(pre + name + post);
  }

  /** A non-empty name without surrounding whitespace is greeted verbatim. */
  lemma GreetingPassesTrimmedName(name: string)
    requires name != [] && Trimmed(name)
    ensures Greeting(name) == Success(Salutation + name + "!")
  {
    StripTrimmedIsIdentity(name);
    GreetingIsSalutationOfStrip(name);
  }

  /** "World", one of the inputs the package's tests use, is greeted as given. */
  lemma GreetingWorldExample()
    ensures Greeting("World") == Success("Hello, World!")
  {
    GreetingPassesTrimmedName("World");
    assert Salutation + "World" + "!" == "Hello, World!";
  }

  /** A padded name from the inputs the package's tests use is greeted stripped. */
  lemma GreetingPaddedExample()
    ensures Greeting("  Python  ") == Success("Hello, Python!")
  {
    var s := "  Python  ";
    assert StripsTo(s, 2, 8);
    StripUnique(s, 2, 8);
    assert s[2..8] == "Python";
    GreetingIsSalutationOfStrip(s);
    assert Salutation + "Python" + "!" == "Hello, Python!";
  }

  /** The invalid names the package's tests use for `greeting`. */
  lemma GreetingRejectExamples()
    ensures Greeting("") == Failure(EmptyNameMessage)
    ensures Greeting("   ") == Failure(EmptyNameMessage)
  {
    assert AllWhitespace("   ");
  }

  // ---------------------------------------------------------------------------
  // calculate_sum
  // ---------------------------------------------------------------------------

  /** Python's built-in `sum`: start at 0 and add the elements left to right. */
  function Sum(xs: seq<real>): real {
    if xs == [] then 0.0 else Sum(xs[..|xs| - 1]) + xs[|xs| - 1]
  }

  /** The arithmetic sum, first element plus the sum of the rest. */
  function Total(xs: seq<real>): real {
    if xs == [] then 0.0 else xs[0] + Total(xs[1..])
  }

  /** The sum of a concatenation is the sum of its parts. */
  lemma {:induction false} SumAppend(xs: seq<real>, ys: seq<real>)
    ensures Sum(xs + ys) == Sum(xs) + Sum(ys)
    decreases |ys|
  {
    if ys == [] {
      assert xs + ys == xs;
    } else {
      var init := ys[..|ys| - 1];
      assert (xs + ys)[..|xs + ys| - 1] == xs + init;
      SumAppend(xs, init);
    }
  }

  /** Accumulating left to right gives the arithmetic sum. */
  lemma {:induction false} SumIsTotal(xs: seq<real>)
    ensures Sum(xs) == Total(xs)
    decreases |xs|
  {
    if xs != [] {
      assert xs == [xs[0]] + xs[1..];
      SumAppend([xs[0]], xs[1..]);
      assert [xs[0]][..0] == [];
      SumIsTotal(xs[1..]);
    }
  }

  /** `calculate_sum(numbers)`: rejects the empty list, otherwise the sum. */
  function CalculateSum(numbers: seq<real>): (r: Result<real, string>)
    ensures r.Failure? <==> numbers == []
    ensures r.Failure? ==> r.error == EmptyListMessage
    ensures r.Success? ==> r.value == Total(numbers)
  {
    SumIsTotal(numbers);
    if |numbers| == 0 then Failure(EmptyListMessage) else Success(Sum(numbers))
  }

  /** Summing splits over concatenation of non-empty lists, and a single
      number sums to itself. */
  lemma CalculateSumFacts(xs: seq<real>, ys: seq<real>, x: real)
    requires xs != [] && ys != []
    ensures CalculateSum(xs + ys).value == CalculateSum(xs).value + CalculateSum(ys).value
    ensures CalculateSum([x]) == Success(x)
  {
    SumIsTotal(xs);
    SumIsTotal(ys);
    SumIsTotal(xs + ys);
    SumAppend(xs, ys);
    assert [x][1..] == [];
    assert Total([x]) == x;
  }

  /** The inputs the package's tests use for `calculate_sum`. */
  lemma CalculateSumExamples()
    ensures CalculateSum([1.0, 2.0, 3.0, 4.0, 5.0]) == Success(15.0)
    ensures CalculateSum([1.0, 2.0, 3.0]) == Success(6.0)
    ensures CalculateSum([100.0]) == Success(100.0)
    ensures CalculateSum([1.5, 2.5, 3.0]) == Success(7.0)
    ensures CalculateSum([1.0, 2.5, 3.0]) == Success(6.5)
    ensures CalculateSum([42.0]) == Success(42.0)
    ensures CalculateSum([-1.0, -2.0, -3.0]) == Success(-6.0)
    ensures CalculateSum([-5.0, 5.0]) == Success(0.0)
    ensures CalculateSum([10.0, -5.0, 0.0]) == Success(5.0)
    ensures CalculateSum([-1.0, 1.0, -1.0, 1.0]) == Success(0.0)
    ensures CalculateSum([]) == Failure(EmptyListMessage)
  {
  }

  // ---------------------------------------------------------------------------
  // is_even
  // ---------------------------------------------------------------------------

  /** Python's `a % b`: the remainder of floor division, which takes the
      sign of the divisor. Dafny's `%` is Euclidean (never negative). */
  function PyMod(a: int, b: int): (r: int)
    requires b != 0
    ensures b > 0 ==> 0 <= r < b
    ensures b < 0 ==> b < r <= 0
    ensures a == b * PyFloorDiv(a, b) + r
    ensures r == 0 <==> a % b == 0
    ensures b > 0 ==> r == a % b
  {
    var e := a % b;
    if b < 0 && e != 0 then e + b else e
  }

  /** Python's `a // b`: the quotient rounded towards negative infinity. */
  function PyFloorDiv(a: int, b: int): int
    requires b != 0
  {
    var q := a / b;
    if b < 0 && a % b != 0 then q - 1 else q
  }

  /** `is_even(number)`: the remainder by 2 is 0. */
  function IsEven(n: int): bool {
    PyMod(n, 2) == 0
  }

  /** Parity by counting: 0 is even, each step away from 0 flips parity,
      and a negative number has the parity of its opposite. */
  function EvenByCounting(n: int): bool
    decreases if n >= 0 then 2 * n else 1 - 2 * n
  {
    if n == 0 then true
    else if n > 0 then !EvenByCounting(n - 1)
    else EvenByCounting(-n)
  }

  /** `is_even` agrees with parity by counting, for every integer. */
  lemma {:induction false} IsEvenMatchesCounting(n: int)
    ensures IsEven(n) == EvenByCounting(n)
    decreases if n >= 0 then 2 * n else 1 - 2 * n
  {
    if n > 0 {
      IsEvenMatchesCounting(n - 1);
    } else if n < 0 {
      IsEvenMatchesCounting(-n);
    }
  }

  /** `is_even` holds exactly of the multiples of two. */
  lemma IsEvenIffDouble(n: int)
    ensures IsEven(n) <==> n == 2 * (n / 2)
  {
  }

  /** Parity alternates between neighbours and ignores sign. */
  lemma IsEvenAlternatesAndIsSymmetric(n: int)
    ensures IsEven(n + 1) == !IsEven(n)
    ensures IsEven(-n) == IsEven(n)
  {
  }

  /** The inputs the package's tests use for `is_even`. */
  lemma IsEvenExamples()
    ensures IsEven(0) && IsEven(2) && IsEven(4) && IsEven(100) && IsEven(1000)
    ensures IsEven(-2) && IsEven(-4) && IsEven(-100)
    ensures !IsEven(1) && !IsEven(3) && !IsEven(99) && !IsEven(1001)
    ensures !IsEven(-1) && !IsEven(-3) && !IsEven(-99)
  {
  }
}
