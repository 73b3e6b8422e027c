/**
 * Day 7, Python solution: each line `target: n1 n2 ...` is kept when the
 * numbers, combined left to right with `*`, `+` and decimal concatenation,
 * can reach the target; the answer sums the targets kept.
 */
module Day07Py {
  import opened Wrappers
  import opened Text
  import opened PyText

  // ------------------------------------------------------------- operations

  /** `mul`. */
  function Mul(a: int, b: int): (r: int)
    ensures a >= 0 && b >= 0 ==> r >= 0
  {
    a * b
  }

  /** `add`. */
  function Add(a: int, b: int): (r: int)
    ensures a >= 0 && b >= 0 ==> r >= a && r >= b
  {
    a + b
  }

  /**
   * `cat`: `int(str(a) + str(b))`. For non-negative operands it shifts `a`
   * left by the digits of `b` and adds `b`; a negative right operand leaves a
   * `-` inside the text, so `int` raises ValueError.
   */
  function Cat(a: int, b: int): (r: Result<int, Exc>)
    ensures a >= 0 && b >= 0 ==> r == Ok(Concat(a, b))
    ensures b < 0 ==> r == Err(ValueError)
  {
    if b < 0 then
      JoinedMinusRaises(a, b);
      ParseInt(Str(a) + Str(b))
    else if a >= 0 then
      JoinedDigits(a, b);
      ParseInt(Str(a) + Str(b))
    else
      ParseInt(Str(a) + Str(b))
  }

  /** `b` written after `a` in decimal, for non-negative `a` and `b`. */
  function Concat(a: nat, b: nat): (r: nat)
    ensures r >= a && r >= b
  {
    var p := Pow10(|NatStr(b)|);
    assert a * p >= a * 1;
    a * p + b
  }

  /** `str(a) + str(b)` has no surrounding whitespace, so `int` reads it as it stands. */
  lemma CatLiteral(a: int, b: int)
    ensures ParseInt(Str(a) + Str(b)) == ParseLiteral(Str(a) + Str(b))
  {
    var s := Str(a) + Str(b);
    StrShape(a);
    StrShape(b);
    assert s[0] == Str(a)[0];
    assert s[|s| - 1] == Str(b)[|Str(b)| - 1];
    ParseIntOfLiteral(s);
  }

  /** The decimal digits of two naturals, joined, read as `Concat`. */
  lemma JoinedDigits(a: nat, b: nat)
    ensures ParseInt(Str(a) + Str(b)) == Ok(Concat(a, b))
  {
    var x, y := NatStr(a), NatStr(b);
    assert Str(a) + Str(b) == x + y;
    DecimalAppend(x, y);
    assert DecimalValue(x + y) == Concat(a, b);
    ParseIntOfDigits(x + y);
  }

  /** A negative left operand keeps its sign in front of the joined digits: `cat(a, b) == -cat(-a, b)`. */
  lemma CatOfNegative(a: int, b: nat)
    requires a < 0
    ensures Cat(a, b).Ok? && Cat(-a, b).Ok? && Cat(a, b).value == -Cat(-a, b).value
  {
    var d := NatStr(-a) + NatStr(b);
    assert Str(-a) + Str(b) == d;
    assert Str(a) + Str(b) == "-" + d;
    AllDigitsAppend(NatStr(-a), NatStr(b));
    ParseIntOfDigits(d);
    ParseIntOfNegDigits(d);
  }

  /** A `-` after the first character of the joined text makes `int` raise ValueError. */
  lemma JoinedMinusRaises(a: int, b: int)
    requires b < 0
    ensures ParseInt(Str(a) + Str(b)) == Err(ValueError)
  {
    CatLiteral(a, b);
    var x, y := Str(a), NatStr(-b);
    StrShape(a);
    assert Str(b) == "-" + y;
    assert x + Str(b) == x + "-" + y;
    InnerMinusRaises(x, y);
  }

  // ---------------------------------------------------------------- operate

  type Operation = (int, int) -> Result<int, Exc>

  /** `[mul, add, cat]`, in the order `operate` tries them. */
  const OPERATIONS: seq<Operation> := [(a, b) => Ok(Mul(a, b)), (a, b) => Ok(Add(a, b)), Cat]

  /**
   * `operate`: `True`, `None` (here `false`) or a raised exception. A
   * positive accumulated value is combined with the next field; otherwise the
   * next two fields are combined, so an accumulated 0 starts over.
   */
  function Operate(fields: seq<int>, value: int, target: int): (r: Result<bool, Exc>)
    ensures value > 0 && (forall i :: 0 <= i < |fields| ==> fields[i] > 0) ==>
      r == Ok(Reaches(value, fields, target))
    ensures value == 0 && |fields| >= 2 && (forall i :: 0 <= i < |fields| ==> fields[i] > 0) ==>
      r == Ok(Reaches(fields[0], fields[1..], target))
  {
    var r := OperateWith(OPERATIONS, fields, value, target, true);
    OperationsAreArithmetic();
    if (forall i :: 0 <= i < |fields| ==> fields[i] > 0) then
      var positive: seq<nat> := fields;
      assert value > 0 ==> r == Ok(Reaches(value, positive, target)) by {
        if value > 0 {
          OperateDecides(OPERATIONS, positive, value, target);
        }
      }
      assert value == 0 && |fields| >= 2 ==> r == Ok(Reaches(positive[0], positive[1..], target)) by {
        if value == 0 && |fields| >= 2 {
          OperateLineWith(OPERATIONS, positive, target);
        }
      }
      r
    else
      r
  }

  /**
   * `operate` with the list of operations it loops over. With `startOver`,
   * as written, a value of 0 or less is taken for the start of a line;
   * without it the value is always combined with the next field.
   */
  function OperateWith(ops: seq<Operation>, fields: seq<int>, value: int, target: int, startOver: bool): Result<bool, Exc>
    decreases |fields|, |ops| + 1
  {
    if |fields| == 0 then Ok(value == target)
    else if startOver && value <= 0 && |fields| < 2 then Err(IndexError)
    else if !startOver || value > 0 then TryEach(ops, 0, value, fields[0], fields[1..], target, startOver)
    else TryEach(ops, 0, fields[0], fields[1], fields[2..], target, startOver)
  }

  /** The `for operation in ...` loop from `ops[i]` on: the first success or exception ends it. */
  function TryEach(ops: seq<Operation>, i: nat, left: int, right: int, rest: seq<int>, target: int, startOver: bool): Result<bool, Exc>
    requires i <= |ops|
    decreases |rest| + 1, |ops| - i
  {
    if i == |ops| then Ok(false)
    else
      match ops[i](left, right)
      case Err(e) => Err(e)
      case Ok(intermediate) =>
        match OperateWith(ops, rest, intermediate, target, startOver)
        case Ok(false) => TryEach(ops, i + 1, left, right, rest, target, startOver)
        case found => found
  }

  /** The first of three outcomes that is not `Ok(false)`, else the last. */
  function Either(first: Result<bool, Exc>, second: Result<bool, Exc>, third: Result<bool, Exc>): (r: Result<bool, Exc>)
    ensures first.Ok? && second.Ok? && third.Ok? ==> r == Ok(first.value || second.value || third.value)
    ensures r == first || r == second || r == third
  {
    if first != Ok(false) then first
    else if second != Ok(false) then second
    else third
  }

  /** The loop over three operations that all succeed tries their three results in order. */
  lemma TryThree(ops: seq<Operation>, left: int, right: int, rest: seq<int>, target: int, startOver: bool)
    requires |ops| == 3
    requires ops[0](left, right).Ok? && ops[1](left, right).Ok? && ops[2](left, right).Ok?
    ensures TryEach(ops, 0, left, right, rest, target, startOver)
         == Either(OperateWith(ops, rest, ops[0](left, right).value, target, startOver),
                   OperateWith(ops, rest, ops[1](left, right).value, target, startOver),
                   OperateWith(ops, rest, ops[2](left, right).value, target, startOver))
  {
    assert TryEach(ops, 3, left, right, rest, target, startOver) == Ok(false);
    var third := OperateWith(ops, rest, ops[2](left, right).value, target, startOver);
    assert TryEach(ops, 2, left, right, rest, target, startOver) == third;
    var second := OperateWith(ops, rest, ops[1](left, right).value, target, startOver);
    assert TryEach(ops, 1, left, right, rest, target, startOver) == if second != Ok(false) then second else third;
  }

  /**
   * Some choice of `*`, `+` or concatenation between `acc` and each of
   * `rest`, applied strictly left to right, reaches `target`.
   */
  predicate Reaches(acc: nat, rest: seq<nat>, target: int)
    decreases |rest|
  {
    if rest == [] then acc == target
    else
      Reaches(acc * rest[0], rest[1..], target)
      || Reaches(acc + rest[0], rest[1..], target)
      || Reaches(Concat(acc, rest[0]), rest[1..], target)
  }

  predicate AllPositive(s: seq<nat>)
  {
    forall i :: 0 <= i < |s| ==> s[i] > 0
  }

  /** Multiplication, addition, and concatenation on non-negative operands. */
  ghost predicate Arithmetic(ops: seq<Operation>)
  {
    |ops| == 3
    && (forall x: int, y: int :: ops[0](x, y) == Ok(x * y))
    && (forall x: int, y: int :: ops[1](x, y) == Ok(x + y))
    && (forall x: nat, y: nat :: ops[2](x, y) == Ok(Concat(x, y)))
  }

  lemma OperationsAreArithmetic()
    ensures Arithmetic(OPERATIONS)
  {
  }

  /** From a positive accumulated value and positive fields, `operate` decides `Reaches`. */
  lemma {:induction false} OperateDecides(ops: seq<Operation>, fields: seq<nat>, value: nat, target: int)
    requires Arithmetic(ops) && value > 0 && AllPositive(fields)
    decreases |fields|
    ensures OperateWith(ops, fields, value, target, true) == Ok(Reaches(value, fields, target))
  {
    if fields != [] {
      var right, rest := fields[0], fields[1..];
      var product, sum, joined := value * right, value + right, Concat(value, right);
      assert product > 0;
      assert AllPositive(rest);
      OperateDecides(ops, rest, product, target);
      OperateDecides(ops, rest, sum, target);
      OperateDecides(ops, rest, joined, target);
      assert ops[0](value, right) == Ok(product);
      assert ops[1](value, right) == Ok(sum);
      assert ops[2](value, right) == Ok(joined);
      TryThree(ops, value, right, rest, target, true);
    }
  }

  lemma OperateLineWith(ops: seq<Operation>, numbers: seq<nat>, target: int)
    requires Arithmetic(ops) && |numbers| >= 2 && AllPositive(numbers)
    ensures OperateWith(ops, numbers, 0, target, true) == Ok(Reaches(numbers[0], numbers[1..], target))
  {
    var a, b, rest := numbers[0], numbers[1], numbers[2..];
    var product, sum, joined := a * b, a + b, Concat(a, b);
    assert product > 0;
    assert AllPositive(rest);
    OperateDecides(ops, rest, product, target);
    OperateDecides(ops, rest, sum, target);
    OperateDecides(ops, rest, joined, target);
    assert ops[0](a, b) == Ok(product);
    assert ops[1](a, b) == Ok(sum);
    assert ops[2](a, b) == Ok(joined);
    TryThree(ops, a, b, rest, target, true);
    assert numbers[1..][1..] == rest;
  }

  /**
   * A zero reached on the way makes `operate` start over from the next two
   * fields; with one field left that raises IndexError, although `3 * 0 + 5`
   * reaches 5.
   */
  lemma ZeroStartsOver()
    ensures Operate([3, 0, 5], 0, 5) == Err(IndexError)
    ensures Reaches(3, [0, 5], 5)
  {
    assert [3, 0, 5][2..] == [5];
    assert OPERATIONS[0](3, 0) == Ok(0);
    assert OperateWith(OPERATIONS, [5], 0, 5, true) == Err(IndexError);
    assert TryEach(OPERATIONS, 0, 3, 0, [5], 5, true) == Err(IndexError);
    assert OperateWith(OPERATIONS, [3, 0, 5], 0, 5, true) == TryEach(OPERATIONS, 0, 3, 0, [5], 5, true);
    assert Reaches(0, [5], 5) by {
      assert Reaches(5, [], 5);
      assert [5][1..] == [];
    }
    assert [0, 5][1..] == [5];
  }

  /**
   * `operate` started from the first number, with no value read as the
   * start of a line: for all non-negative numbers it decides `Reaches`.
   */
  lemma {:induction false} OperateFromDecides(ops: seq<Operation>, fields: seq<nat>, value: nat, target: int)
    requires Arithmetic(ops)
    decreases |fields|
    ensures OperateWith(ops, fields, value, target, false) == Ok(Reaches(value, fields, target))
  {
    if fields != [] {
      var right, rest := fields[0], fields[1..];
      var product, sum, joined := value * right, value + right, Concat(value, right);
      OperateFromDecides(ops, rest, product, target);
      OperateFromDecides(ops, rest, sum, target);
      OperateFromDecides(ops, rest, joined, target);
      assert ops[0](value, right) == Ok(product);
      assert ops[1](value, right) == Ok(sum);
      assert ops[2](value, right) == Ok(joined);
      TryThree(ops, value, right, rest, target, false);
    }
  }

  /** The corrected `operate` on a line: true exactly when some choice of operators reaches the target. */
  function OperateCorrected(numbers: seq<int>, target: int): Result<bool, Exc>
    requires numbers != []
  {
    OperateWith(OPERATIONS, numbers[1..], numbers[0], target, false)
  }

  lemma OperateCorrectedDecides(numbers: seq<nat>, target: int)
    requires numbers != []
    ensures OperateCorrected(numbers, target) == Ok(Reaches(numbers[0], numbers[1..], target))
  {
    OperationsAreArithmetic();
    OperateFromDecides(OPERATIONS, numbers[1..], numbers[0], target);
  }

  // ------------------------------------------------------------------- main

  /** `line.split(":")`, `int(values[0])` and `list(map(int, values[1].split()))`. */
  function Equation(line: string): Result<(int, seq<int>), Exc>
  {
    var values := Split(line, ":");
    match ParseInt(values[0])
    case Err(e) => Err(e)
    case Ok(target) =>
      match PyAt(values, 1)
      case Err(e) => Err(e)
      case Ok(text) =>
        match ParseInts(Words(text))
        case Err(e) => Err(e)
        case Ok(numbers) => Ok((target, numbers))
  }

  /**
   * What one line adds to `sums`: its target when `operate` succeeds,
   * nothing when it fails or a ValueError is caught, or the uncaught
   * exception that ends the run.
   */
  function LineSum(line: string): Result<int, Exc>
  {
    if line == "" then Ok(0)
    else
      match Equation(line)
      case Err(ValueError) => Ok(0)
      case Err(e) => Err(e)
      case Ok((target, numbers)) =>
        match Operate(numbers, 0, target)
        case Ok(true) => Ok(target)
        case Ok(false) => Ok(0)
        case Err(ValueError) => Ok(0)
        case Err(e) => Err(e)
  }

  /** The `sums` that `main` prints, or the exception that stops it. */
  function Calibration(data: seq<string>): Result<int, Exc>
  {
    Run(data, LineSum)
  }

  /** The loop of `main` with the outcome of one line as a parameter. */
  function Run(data: seq<string>, outcome: string -> Result<int, Exc>): Result<int, Exc>
  {
    if data == [] then Ok(0)
    else Tally(Run(data[..|data| - 1], outcome), outcome(data[|data| - 1]))
  }

  /** The running sum after one more line: the first exception wins. */
  function Tally(sums: Result<int, Exc>, added: Result<int, Exc>): (r: Result<int, Exc>)
    ensures r.Ok? <==> sums.Ok? && added.Ok?
    ensures r.Ok? ==> r.value == sums.value + added.value
    ensures sums.Err? ==> r == sums
    ensures sums.Ok? && added.Err? ==> r == added
  {
    match sums
    case Err(e) => Err(e)
    case Ok(s) =>
      match added
      case Err(e) => Err(e)
      case Ok(t) => Ok(s + t)
  }

  /** One more line: its exception ends the run, or its value is added to `sums`. */
  lemma RunStep(data: seq<string>, outcome: string -> Result<int, Exc>, k: nat, sums: int, added: Result<int, Exc>)
    requires k < |data| && Run(data[..k], outcome) == Ok(sums) && added == outcome(data[k])
    ensures added.Ok? ==> Run(data[..k + 1], outcome) == Ok(sums + added.value)
    ensures added.Err? ==> Run(data, outcome) == added
  {
    assert data[..k + 1][..k] == data[..k];
    if added.Err? {
      FirstExceptionEnds(data, outcome, k + 1);
    }
  }

  /** The first uncaught exception ends the run: nothing after it changes the outcome. */
  lemma {:induction false} FirstExceptionEnds(data: seq<string>, outcome: string -> Result<int, Exc>, k: nat)
    requires k <= |data| && Run(data[..k], outcome).Err?
    decreases |data| - k
    ensures Run(data, outcome) == Run(data[..k], outcome)
  {
    if k < |data| {
      assert data[..k + 1][..k] == data[..k];
      FirstExceptionEnds(data, outcome, k + 1);
    } else {
      assert data[..k] == data;
    }
  }

  /** One pass of the `main` loop's body: the `try` block and its `except ValueError`. */
  method AddLine(line: string) returns (r: Result<int, Exc>)
    ensures r == LineSum(line)
  {
    if line == "" {
      return Ok(0);
    }
    var values := Split(line, ":");
    var target := ParseInt(values[0]);
    if target.Err? {
      return Ok(0);
    }
    var text := PyAt(values, 1);
    if text.Err? {
      return Err(text.error);
    }
    var numbers := ParseInts(Words(text.value));
    if numbers.Err? {
      return Ok(0);
    }
    var found := Operate(numbers.value, 0, target.value);
    if found.Err? {
      if found.error == ValueError {
        return Ok(0);
      }
      return Err(found.error);
    }
    return Ok(if found.value then target.value else 0);
  }

  /** The loop of `main` over the lines of the input. */
  method Calibrate(data: seq<string>) returns (r: Result<int, Exc>)
    ensures r == Calibration(data)
  {
    var sums := 0;
    var k := 0;
    while k < |data|
      invariant k <= |data|
      invariant Run(data[..k], LineSum) == Ok(sums)
    {
      var added := AddLine(data[k]);
      RunStep(data, LineSum, k, sums, added);
      if added.Err? {
        return added;
      }
      ghost var k0 := k;
      sums := sums + added.value;
      k := k + 1;
      assert data[..k] == data[..k0 + 1];
    }
    assert data[..|data|] == data;
    return Ok(sums);
  }

  // --------------------------------------------------- the input, re-read

  /** An equation written as the puzzle writes it: `190: 10 19`. */
  function EquationLine(target: int, numbers: seq<int>): string
  {
    Str(target) + ":" + Spaced(StrAll(numbers))
  }

  lemma {:induction false} SpacedFree(ws: seq<string>, c: char)
    requires c != ' ' && forall i :: 0 <= i < |ws| ==> c !in ws[i]
    ensures c !in Spaced(ws)
  {
    if ws != [] {
      SpacedFree(ws[1..], c);
    }
  }

  /** The colon splits a written equation into the target's text and the numbers' text. */
  lemma EquationSplits(target: int, numbers: seq<int>)
    ensures Split(EquationLine(target, numbers), ":") == [Str(target), Spaced(StrAll(numbers))]
  {
    var head, text := Str(target), Spaced(StrAll(numbers));
    assert Join([head, text], ":") == EquationLine(target, numbers);
    StrFree(target, ':');
    forall i | 0 <= i < |numbers| ensures ':' !in StrAll(numbers)[i] {
      StrFree(numbers[i], ':');
    }
    SpacedFree(StrAll(numbers), ':');
    JoinSplit([head, text], ':');
  }

  /** `list(map(int, text.split()))` reads the written numbers back. */
  lemma NumbersOfText(numbers: seq<int>)
    ensures ParseInts(Words(Spaced(StrAll(numbers)))) == Ok(numbers)
  {
    forall i | 0 <= i < |numbers| ensures StrAll(numbers)[i] != [] && NoSpace(StrAll(numbers)[i]) {
      StrShape(numbers[i]);
      StrNoSpace(numbers[i]);
    }
    WordsOfSpaced(StrAll(numbers));
    ParseIntsOfStrAll(numbers);
  }

  /** Reading a written equation gives back its target and numbers. */
  lemma EquationOfLine(target: int, numbers: seq<int>)
    ensures Equation(EquationLine(target, numbers)) == Ok((target, numbers))
  {
    EquationSplits(target, numbers);
    ParseIntOfStr(target);
    NumbersOfText(numbers);
  }

  /** A well-formed line adds its target exactly when some choice of operators reaches it. */
  lemma LineOfEquation(target: int, numbers: seq<nat>)
    requires |numbers| >= 2 && AllPositive(numbers)
    ensures LineSum(EquationLine(target, numbers)) == Ok(if Reaches(numbers[0], numbers[1..], target) then target else 0)
  {
    EquationOfLine(target, numbers);
    StrShape(target);
  }

  /** An equation of the puzzle: a target and at least two positive numbers. */
  predicate WellFormed(eq: (int, seq<nat>))
  {
    |eq.1| >= 2 && AllPositive(eq.1)
  }

  /** What a well-formed equation adds to the total: its target when some choice of operators reaches it. */
  function Gain(eq: (int, seq<nat>)): int
    requires WellFormed(eq)
  {
    if Reaches(eq.1[0], eq.1[1..], eq.0) then eq.0 else 0
  }

  function Gains(eqs: seq<(int, seq<nat>)>): (r: seq<int>)
    requires forall i :: 0 <= i < |eqs| ==> WellFormed(eqs[i])
    ensures |r| == |eqs| && forall i :: 0 <= i < |eqs| ==> r[i] == Gain(eqs[i])
  {
    if eqs == [] then [] else [Gain(eqs[0])] + Gains(eqs[1..])
  }

  function Sum(s: seq<int>): int
  {
    if s == [] then 0 else Sum(s[..|s| - 1]) + s[|s| - 1]
  }

  function EquationLines(eqs: seq<(int, seq<nat>)>): (r: seq<string>)
    ensures |r| == |eqs| && forall i :: 0 <= i < |eqs| ==> r[i] == EquationLine(eqs[i].0, eqs[i].1)
  {
    if eqs == [] then [] else [EquationLine(eqs[0].0, eqs[0].1)] + EquationLines(eqs[1..])
  }

  /** A run over lines that all succeed adds up their values. */
  lemma {:induction false} RunOfLines(data: seq<string>, outcome: string -> Result<int, Exc>, values: seq<int>)
    requires |values| == |data| && forall i :: 0 <= i < |data| ==> outcome(data[i]) == Ok(values[i])
    ensures Run(data, outcome) == Ok(Sum(values))
  {
    if data != [] {
      var n := |data|;
      assert forall i :: 0 <= i < n - 1 ==> data[..n - 1][i] == data[i];
      RunOfLines(data[..n - 1], outcome, values[..n - 1]);
    }
  }

  /** On an input of well-formed equations, `main` prints the sum of the targets that can be reached. */
  lemma CalibrationOfEquations(eqs: seq<(int, seq<nat>)>)
    requires forall i :: 0 <= i < |eqs| ==> WellFormed(eqs[i])
    ensures Calibration(EquationLines(eqs)) == Ok(Sum(Gains(eqs)))
  {
    var lines, gains := EquationLines(eqs), Gains(eqs);
    forall i | 0 <= i < |lines| ensures LineSum(lines[i]) == Ok(gains[i]) {
      LineOfEquation(eqs[i].0, eqs[i].1);
    }
    RunOfLines(lines, LineSum, gains);
  }

  /** A line without a colon raises an IndexError that `except ValueError` does not catch: the run stops. */
  lemma MissingColonStops(n: int)
    ensures LineSum(Str(n)) == Err(IndexError)
  {
    StrShape(n);
    StrFree(n, ':');
    forall q ensures !OccursAt(Str(n), ":", q) {
      OccursChar(Str(n), ':', q);
    }
    SplitAbsent(Str(n), ":");
    ParseIntOfStr(n);
  }
}
