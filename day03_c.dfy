/**
 * Day 3, C solution. `parse_instructions` scans a NUL-terminated buffer for
 * `mul(` and runs a small state machine over what follows, adding the product
 * of each `mul(X,Y)` with 1-3 digit operands. `recover_instructions` cuts every
 * `don't()` ... `do()` span out of the buffer in place.
 */
module Day03C {
  import opened Wrappers
  import opened Text

  const TOKEN: string := "mul("
  const STOP: string := "don't()"
  const RESUME: string := "do()"
  const MAX_INSTRUCTION_LEN: nat := 8

  // ---------------------------------------------------------------- C strings

  /** The C string held in a buffer: everything before the first NUL. */
  function CString(buf: seq<char>): (s: string)
    ensures '\0' !in s && |s| <= |buf| && s == buf[..|s|]
    ensures |s| < |buf| ==> buf[|s|] == '\0'
    ensures '\0' !in buf ==> s == buf
  {
    if buf == [] || buf[0] == '\0' then []
    else [buf[0]] + CString(buf[1..])
  }

  /** Character `i` of the C string `s`, reading its terminator past the end. */
  function At(s: string, i: nat): char
  {
    if i < |s| then s[i] else '\0'
  }

  // ------------------------------------------------- the instruction language

  /** Length of the digit run at `i`, cut off after three digits (the C digit loops). */
  function DigitRun(s: string, i: nat): (n: nat)
    ensures n <= 3 && (n > 0 ==> i + n <= |s|)
    ensures forall q :: i <= q < i + n ==> IsDigit(s[q])
    ensures n < 3 ==> !IsDigit(At(s, i + n))
  {
    if !IsDigit(At(s, i)) then 0
    else
      assert i < |s|;
      if !IsDigit(At(s, i + 1)) then 1
      else
        assert i + 1 < |s|;
        if !IsDigit(At(s, i + 2)) then 2
        else
          assert i + 2 < |s|;
          3
  }

  datatype Mul = Mul(left: nat, right: nat, end: nat)

  /**
   * The instruction starting at `p`, if any: `mul(`, one to three digits, `,`,
   * one to three digits, `)`. A fourth digit makes it fail, since after three
   * digits the next character must be `,` or `)`.
   */
  function MulAt(s: string, p: nat): (m: Option<Mul>)
    ensures m.Some? ==> OccursAt(s, TOKEN, p) && p + 8 <= m.value.end <= |s|
    ensures m.Some? ==> m.value.left < 1000 && m.value.right < 1000
  {
    if !OccursAt(s, TOKEN, p) then None
    else
      var k := p + 4;
      var l := DigitRun(s, k);
      if l == 0 || At(s, k + l) != ',' then None
      else
        var r := DigitRun(s, k + l + 1);
        if r == 0 || At(s, k + l + 1 + r) != ')' then None
        else
          Pow10UpTo3(l);
          Pow10UpTo3(r);
          Some(Mul(DecimalValue(s[k..k + l]), DecimalValue(s[k + l + 1..k + l + 1 + r]), k + l + 2 + r))
  }

  lemma Pow10UpTo3(n: nat)
    requires n <= 3
    ensures Pow10(n) <= 1000
  {
    assert Pow10(1) == 10;
    assert Pow10(2) == 100;
    assert Pow10(3) == 1000;
  }

  /**
   * `mul\(([0-9]{1,3}),([0-9]{1,3})\)` matches at `p` with `l` left and `r`
   * right digits: the regular expression of the Python solution.
   */
  predicate RegexMatch(s: string, p: nat, l: nat, r: nat)
  {
    1 <= l <= 3 && 1 <= r <= 3 && p + l + r + 6 <= |s| && s[p..p + 4] == TOKEN
    && AllDigits(s[p + 4..p + 4 + l]) && s[p + 4 + l] == ','
    && AllDigits(s[p + 5 + l..p + 5 + l + r]) && s[p + 5 + l + r] == ')'
  }

  /** The state machine and the Python regular expression accept the same instructions. */
  lemma MulAtIsRegex(s: string, p: nat)
    ensures MulAt(s, p).Some? <==> exists l, r :: RegexMatch(s, p, l, r)
  {
    if MulAt(s, p).Some? {
      var l := DigitRun(s, p + 4);
      var r := DigitRun(s, p + 4 + l + 1);
      MulAtMatches(s, p, l, r);
    }
    if exists l, r :: RegexMatch(s, p, l, r) {
      var l: nat, r: nat :| RegexMatch(s, p, l, r);
      RegexMatchIsMulAt(s, p, l, r);
    }
  }

  /** The digit runs the state machine reads are the regular expression's groups. */
  lemma MulAtMatches(s: string, p: nat, l: nat, r: nat)
    requires MulAt(s, p).Some? && l == DigitRun(s, p + 4) && r == DigitRun(s, p + 4 + l + 1)
    ensures RegexMatch(s, p, l, r)
  {
    var k := p + 4;
    DigitsOfRun(s, k, l);
    DigitsOfRun(s, k + l + 1, r);
  }

  lemma DigitsOfRun(s: string, i: nat, n: nat)
    requires n == DigitRun(s, i) && i + n <= |s|
    ensures AllDigits(s[i..i + n])
  {
    var t := s[i..i + n];
    forall q | 0 <= q < n ensures IsDigit(t[q]) {
      assert t[q] == s[i + q];
    }
  }

  /** A match of the regular expression is an instruction the state machine accepts, with the same groups. */
  lemma RegexMatchIsMulAt(s: string, p: nat, l: nat, r: nat)
    requires RegexMatch(s, p, l, r)
    ensures DigitRun(s, p + 4) == l && DigitRun(s, p + 5 + l) == r
    ensures MulAt(s, p) == Some(Mul(DecimalValue(s[p + 4..p + 4 + l]), DecimalValue(s[p + 5 + l..p + 5 + l + r]), p + l + r + 6))
  {
    var k := p + 4;
    RunOfDigits(s, k, l);
    RunOfDigits(s, k + l + 1, r);
  }

  /** A run of one to three digits followed by a non-digit is what `DigitRun` measures. */
  lemma RunOfDigits(s: string, i: nat, n: nat)
    requires 1 <= n <= 3 && i + n < |s| && AllDigits(s[i..i + n]) && !IsDigit(s[i + n])
    ensures DigitRun(s, i) == n
  {
    forall q | i <= q < i + n ensures IsDigit(s[q]) {
      assert s[q] == s[i..i + n][q - i];
    }
  }

  /** Sum of the products of all instructions starting at or after `i`. */
  function SumFrom(s: string, i: nat): int
    decreases |s| - i
  {
    if i >= |s| then 0
    else (match MulAt(s, i) case Some(m) => m.left * m.right case None => 0) + SumFrom(s, i + 1)
  }

  /** The part 1 answer: the products of every instruction in the C string, added up. */
  function Total(s: string): int
  {
    SumFrom(s, 0)
  }

  // ------------------------------------------------------ parse_instructions

  datatype ParseState =
    | ParserError
    | ParserNone
    | ParserLeftDigit
    | ParserComma
    | ParserRightDigit
    | ParserCloseParen
    | ParserComplete

  /** Steps left before the state machine stops; every pass of the loop lowers it. */
  function Rank(state: ParseState): nat
  {
    match state
    case ParserNone => 5
    case ParserLeftDigit => 4
    case ParserComma => 3
    case ParserRightDigit => 2
    case ParserCloseParen => 1
    case _ => 0
  }

  /** No instruction starts at any position in `[a, b)`. */
  lemma {:induction false} SumFromSkips(s: string, a: nat, b: nat)
    requires a <= b
    requires forall q :: a <= q < b ==> MulAt(s, q).None?
    ensures SumFrom(s, a) == SumFrom(s, b)
    decreases b - a
  {
    if a < b && a < |s| {
      SumFromSkips(s, a + 1, b);
    }
  }

  /** `strstr` skips no instruction: every instruction starts with the token. */
  lemma SumFromFind(s: string, from: nat)
    ensures Find(s, TOKEN, from).Some? ==> SumFrom(s, from) == SumFrom(s, Find(s, TOKEN, from).value)
    ensures Find(s, TOKEN, from).None? ==> SumFrom(s, from) == 0
  {
    match Find(s, TOKEN, from)
    case Some(j) =>
      SumFromSkips(s, from, j);
    case None =>
      var end := if from <= |s| then |s| else from;
      forall q | from <= q < end ensures MulAt(s, q).None? {
        assert !OccursAt(s, TOKEN, q);
      }
      SumFromSkips(s, from, end);
      assert SumFrom(s, end) == 0;
  }

  /** Positions holding anything but `m` start no instruction. */
  lemma SkipNonM(s: string, j: nat, cur: nat)
    requires j < cur
    requires forall q :: j < q < cur ==> At(s, q) != 'm'
    ensures SumFrom(s, j + 1) == SumFrom(s, cur)
  {
    assert TOKEN[0] == 'm';
    forall q | j + 1 <= q < cur ensures MulAt(s, q).None? {
      assert At(s, q) != 'm';
    }
    SumFromSkips(s, j + 1, cur);
  }

  /**
   * The state-machine invariant for the instruction whose token starts at `j`:
   * what each state has matched so far, and that no `m` was consumed.
   */
  ghost predicate Matched(s: string, j: nat, state: ParseState, cur: nat, parseLen: nat, left: string, right: string)
  {
    var k := j + 4;
    var l := DigitRun(s, k);
    var r := DigitRun(s, k + l + 1);
    OccursAt(s, TOKEN, j) && k <= cur <= |s| && parseLen <= MAX_INSTRUCTION_LEN
    && (forall q :: j < q < cur ==> At(s, q) != 'm')
    && match state
       case ParserNone => cur == k && parseLen == 0
       case ParserLeftDigit => 1 <= l && cur == k + l && parseLen == l && left == s[k..cur]
       case ParserComma =>
         1 <= l && At(s, k + l) == ',' && cur == k + l + 1 && parseLen == l + 1 && left == s[k..k + l]
       case ParserRightDigit =>
         1 <= l && At(s, k + l) == ',' && 1 <= r && cur == k + l + 1 + r && parseLen == l + 1 + r
         && left == s[k..k + l] && right == s[k + l + 1..cur]
       case ParserCloseParen =>
         MulAt(s, j).Some? && cur == MulAt(s, j).value.end && parseLen == l + r + 2
         && left == s[k..k + l] && right == s[k + l + 1..k + l + 1 + r]
       case ParserComplete => MulAt(s, j).Some? && cur == MulAt(s, j).value.end
       case ParserError => MulAt(s, j).None?
  }

  /** The `digit_len` loop: copy up to three digits starting at `cur`. */
  method ReadDigits(s: string, cur: nat) returns (digits: string)
    requires cur <= |s|
    ensures |digits| == DigitRun(s, cur) && digits == s[cur..cur + |digits|]
  {
    var digitLen := 0;
    digits := [];
    while digitLen < 3 && IsDigit(At(s, cur + digitLen))
      invariant digitLen <= 3 && cur + digitLen <= |s|
      invariant forall q :: cur <= q < cur + digitLen ==> IsDigit(s[q])
      invariant digits == s[cur..cur + digitLen]
    {
      digits := digits + [s[cur + digitLen]];
      digitLen := digitLen + 1;
    }
  }

  /**
   * One pass of the inner loop of `parse_instructions` from the state reached
   * so far; `total` grows by the product in state `parser_close_paren`.
   */
  method Advance(s: string, ghost j: nat, state: ParseState, cur: nat, parseLen: nat, left: string, right: string, total: int)
    returns (state': ParseState, cur': nat, parseLen': nat, left': string, right': string, total': int)
    requires Matched(s, j, state, cur, parseLen, left, right)
    requires state != ParserError && state != ParserComplete
    ensures Matched(s, j, state', cur', parseLen', left', right')
    ensures Rank(state') < Rank(state)
    ensures state' == ParserComplete ==> total' == total + MulAt(s, j).value.left * MulAt(s, j).value.right
    ensures state' != ParserComplete ==> total' == total
  {
    match state
    case ParserNone =>
      state', cur', parseLen', left' := ReadLeft(s, j, cur, parseLen, left, right);
      right', total' := right, total;
    case ParserLeftDigit =>
      state', cur', parseLen' := ReadComma(s, j, cur, parseLen, left, right);
      left', right', total' := left, right, total;
    case ParserComma =>
      state', cur', parseLen', right' := ReadRight(s, j, cur, parseLen, left, right);
      left', total' := left, total;
    case ParserRightDigit =>
      state', cur', parseLen' := ReadParen(s, j, cur, parseLen, left, right);
      left', right', total' := left, right, total;
    case ParserCloseParen =>
      total' := AddProduct(s, j, cur, parseLen, left, right, total);
      state', cur', parseLen', left', right' := ParserComplete, cur, parseLen, left, right;
  }

  /** State `parser_none`: copy the left operand's digits. */
  method ReadLeft(s: string, ghost j: nat, cur: nat, parseLen: nat, left: string, right: string)
    returns (state': ParseState, cur': nat, parseLen': nat, left': string)
    requires Matched(s, j, ParserNone, cur, parseLen, left, right)
    ensures state' == ParserLeftDigit || state' == ParserError
    ensures Matched(s, j, state', cur', parseLen', left', right)
  {
    var digits := ReadDigits(s, cur);
    LeftDigitsRead(s, j, cur, parseLen, left, right, digits);
    left', cur', parseLen' := digits, cur, parseLen;
    if |digits| > 0 {
      cur' := cur + |digits|;
      parseLen' := parseLen + |digits|;
      state' := ParserLeftDigit;
    } else {
      state' := ParserError;
    }
  }

  /** State `parser_left_digit`: expect the comma. */
  method ReadComma(s: string, ghost j: nat, cur: nat, parseLen: nat, left: string, right: string)
    returns (state': ParseState, cur': nat, parseLen': nat)
    requires Matched(s, j, ParserLeftDigit, cur, parseLen, left, right)
    ensures state' == ParserComma || state' == ParserError
    ensures Matched(s, j, state', cur', parseLen', left, right)
  {
    CommaRead(s, j, cur, parseLen, left, right);
    if At(s, cur) == ',' {
      state', cur', parseLen' := ParserComma, cur + 1, parseLen + 1;
    } else {
      state', cur', parseLen' := ParserError, cur, parseLen;
    }
  }

  /** State `parser_comma`: copy the right operand's digits. */
  method ReadRight(s: string, ghost j: nat, cur: nat, parseLen: nat, left: string, right: string)
    returns (state': ParseState, cur': nat, parseLen': nat, right': string)
    requires Matched(s, j, ParserComma, cur, parseLen, left, right)
    ensures state' == ParserRightDigit || state' == ParserError
    ensures Matched(s, j, state', cur', parseLen', left, right')
  {
    var digits := ReadDigits(s, cur);
    RightDigitsRead(s, j, cur, parseLen, left, right, digits);
    right', cur', parseLen' := digits, cur, parseLen;
    if |digits| > 0 {
      cur' := cur + |digits|;
      parseLen' := parseLen + |digits|;
      state' := ParserRightDigit;
    } else {
      state' := ParserError;
    }
  }

  /** State `parser_right_digit`: expect the closing parenthesis. */
  method ReadParen(s: string, ghost j: nat, cur: nat, parseLen: nat, left: string, right: string)
    returns (state': ParseState, cur': nat, parseLen': nat)
    requires Matched(s, j, ParserRightDigit, cur, parseLen, left, right)
    ensures state' == ParserCloseParen || state' == ParserError
    ensures Matched(s, j, state', cur', parseLen', left, right)
  {
    ParenRead(s, j, cur, parseLen, left, right);
    if At(s, cur) == ')' {
      state', cur', parseLen' := ParserCloseParen, cur + 1, parseLen + 1;
    } else {
      state', cur', parseLen' := ParserError, cur, parseLen;
    }
  }

  /** State `parser_close_paren`: `atol` of both copies, multiplied and added. */
  method AddProduct(s: string, ghost j: nat, cur: nat, parseLen: nat, left: string, right: string, total: int)
    returns (total': int)
    requires Matched(s, j, ParserCloseParen, cur, parseLen, left, right)
    ensures Matched(s, j, ParserComplete, cur, parseLen, left, right)
    ensures total' == total + MulAt(s, j).value.left * MulAt(s, j).value.right
  {
    ProductRead(s, j, cur, parseLen, left, right);
    var product := DecimalValue(left) * DecimalValue(right);
    total' := total + product;
  }

  /** Digits are not `m`: reading them keeps the no-`m` part of the invariant. */
  lemma PastDigits(s: string, j: nat, cur: nat, n: nat)
    requires j < cur && cur + n <= |s|
    requires forall q :: j < q < cur ==> At(s, q) != 'm'
    requires forall q :: cur <= q < cur + n ==> IsDigit(s[q])
    ensures forall q :: j < q < cur + n ==> At(s, q) != 'm'
  {
    forall q | j < q < cur + n ensures At(s, q) != 'm' {
      if q >= cur { assert IsDigit(s[q]); }
    }
  }

  /** State `parser_none`: the left operand's digits. */
  lemma LeftDigitsRead(s: string, j: nat, cur: nat, parseLen: nat, left: string, right: string, digits: string)
    requires Matched(s, j, ParserNone, cur, parseLen, left, right)
    requires |digits| == DigitRun(s, cur) && digits == s[cur..cur + |digits|]
    ensures |digits| > 0 ==> Matched(s, j, ParserLeftDigit, cur + |digits|, parseLen + |digits|, digits, right)
    ensures |digits| == 0 ==> Matched(s, j, ParserError, cur, parseLen, digits, right)
  {
    if |digits| > 0 {
      PastDigits(s, j, cur, |digits|);
    }
  }

  /** State `parser_left_digit`: the comma. */
  lemma CommaRead(s: string, j: nat, cur: nat, parseLen: nat, left: string, right: string)
    requires Matched(s, j, ParserLeftDigit, cur, parseLen, left, right)
    ensures At(s, cur) == ',' ==> Matched(s, j, ParserComma, cur + 1, parseLen + 1, left, right)
    ensures At(s, cur) != ',' ==> Matched(s, j, ParserError, cur, parseLen, left, right)
  {
    if At(s, cur) == ',' {
      assert forall q :: j < q < cur + 1 ==> At(s, q) != 'm';
    }
  }

  /** State `parser_comma`: the right operand's digits. */
  lemma RightDigitsRead(s: string, j: nat, cur: nat, parseLen: nat, left: string, right: string, digits: string)
    requires Matched(s, j, ParserComma, cur, parseLen, left, right)
    requires |digits| == DigitRun(s, cur) && digits == s[cur..cur + |digits|]
    ensures |digits| > 0 ==> Matched(s, j, ParserRightDigit, cur + |digits|, parseLen + |digits|, left, digits)
    ensures |digits| == 0 ==> Matched(s, j, ParserError, cur, parseLen, left, digits)
  {
    if |digits| > 0 {
      PastDigits(s, j, cur, |digits|);
    }
  }

  /** State `parser_right_digit`: the closing parenthesis ends a well-formed instruction. */
  lemma ParenRead(s: string, j: nat, cur: nat, parseLen: nat, left: string, right: string)
    requires Matched(s, j, ParserRightDigit, cur, parseLen, left, right)
    ensures At(s, cur) == ')' ==> Matched(s, j, ParserCloseParen, cur + 1, parseLen + 1, left, right)
    ensures At(s, cur) != ')' ==> Matched(s, j, ParserError, cur, parseLen, left, right)
  {
    if At(s, cur) == ')' {
      assert forall q :: j < q < cur + 1 ==> At(s, q) != 'm';
    }
  }

  /** State `parser_close_paren`: the copied operands are the instruction's numbers. */
  lemma ProductRead(s: string, j: nat, cur: nat, parseLen: nat, left: string, right: string)
    requires Matched(s, j, ParserCloseParen, cur, parseLen, left, right)
    ensures AllDigits(left) && AllDigits(right)
    ensures Matched(s, j, ParserComplete, cur, parseLen, left, right)
    ensures DecimalValue(left) * DecimalValue(right) == MulAt(s, j).value.left * MulAt(s, j).value.right
  {
    var m := MulAt(s, j).value;
    assert DecimalValue(left) == m.left && DecimalValue(right) == m.right;
    SameProduct(DecimalValue(left), DecimalValue(right), m.left, m.right);
  }

  lemma SameProduct(a: int, b: int, c: int, d: int)
    requires a == c && b == d
    ensures a * b == c * d
  {
  }

  /**
   * The inner loop of `parse_instructions` for the token found at `j`: runs
   * the state machine until it fails or completes. Returns where the next
   * search starts and the product it added, if any.
   */
  method ParseAt(s: string, j: nat) returns (cur: nat, product: int)
    requires OccursAt(s, TOKEN, j)
    ensures j < cur <= |s|
    ensures SumFrom(s, j) == product + SumFrom(s, cur)
  {
    var parseLen: nat := 0;
    var left, right := [], [];
    var parserState := ParserNone;
    cur := j + |TOKEN|;
    product := 0;
    while parseLen < MAX_INSTRUCTION_LEN + 1 && parserState != ParserError && parserState != ParserComplete
      invariant Matched(s, j, parserState, cur, parseLen, left, right)
      invariant parserState == ParserComplete ==> product == MulAt(s, j).value.left * MulAt(s, j).value.right
      invariant parserState != ParserComplete ==> product == 0
      decreases Rank(parserState)
    {
      parserState, cur, parseLen, left, right, product := Advance(s, j, parserState, cur, parseLen, left, right, product);
    }
    if parserState == ParserComplete {
      assert SumFrom(s, j) == MulAt(s, j).value.left * MulAt(s, j).value.right + SumFrom(s, j + 1);
    } else {
      assert SumFrom(s, j) == SumFrom(s, j + 1);
    }
    SkipNonM(s, j, cur);
  }

  /**
   * `parse_instructions`: the sum of the products of all instructions in the
   * C string held by `buf`. A failed instruction resumes the search where the
   * state machine stopped, which skips no instruction.
   */
  method ParseInstructions(buf: seq<char>) returns (total: int)
    ensures total == Total(CString(buf))
  {
    var s := CString(buf);
    total := 0;
    var instruction := Find(s, TOKEN, 0);
    SumFromFind(s, 0);
    while instruction.Some?
      invariant instruction.Some? ==> OccursAt(s, TOKEN, instruction.value)
                                      && total + SumFrom(s, instruction.value) == Total(s)
      invariant instruction.None? ==> total == Total(s)
      decreases if instruction.Some? then |s| - instruction.value + 1 else 0
    {
      var cur, product := ParseAt(s, instruction.value);
      total := total + product;
      instruction := Find(s, TOKEN, cur);
      SumFromFind(s, cur);
    }
  }

  /** Text with no `mul(` holds no instruction. */
  lemma {:induction false} NoTokenNoTotal(s: string)
    requires forall q :: !OccursAt(s, TOKEN, q)
    ensures Total(s) == 0
  {
    SumFromFind(s, 0);
  }

  // ---------------------------------------------------- recover_instructions

  function Zeros(n: nat): (z: seq<char>)
    ensures |z| == n && forall i :: 0 <= i < n ==> z[i] == '\0'
  {
    seq(n, _ => '\0')
  }

  /** `memmove` over `[off, e + 4)` followed by `memset` of the freed tail: the span is cut out. */
  function Splice(b: seq<char>, off: nat, e: nat): seq<char>
    requires off <= e + 4 <= |b|
  {
    b[..off] + b[e + 4..] + Zeros(e + 4 - off)
  }

  /** `memset(start, '\0', len - off - 7)`: the last seven bytes of the buffer keep their value. */
  function Truncate(b: seq<char>, off: nat): seq<char>
    requires off + 7 <= |b|
  {
    b[..off] + Zeros(|b| - off - 7) + b[|b| - 7..]
  }

  /** One leading non-NUL character passes into the C string. */
  lemma CStringCons(c: char, w: seq<char>)
    requires c != '\0'
    ensures CString([c] + w) == [c] + CString(w)
  {
    assert ([c] + w)[1..] == w;
  }

  lemma {:induction false} CStringAppend(x: seq<char>, y: seq<char>)
    requires '\0' !in x
    ensures CString(x + y) == x + CString(y)
  {
    if x == [] {
      assert x + y == y;
    } else {
      var t := x[1..];
      assert x[0] in x;
      assert x == [x[0]] + t;
      assert x + y == [x[0]] + (t + y);
      assert '\0' !in t by {
        assert forall c :: c in t ==> c in x;
      }
      CStringAppend(t, y);
      CStringCons(x[0], t + y);
    }
  }

  lemma CStringOfTerminated(x: seq<char>, rest: seq<char>)
    requires '\0' !in x && rest != [] && rest[0] == '\0'
    ensures CString(x + rest) == x
  {
    CStringAppend(x, rest);
  }

  /** After a splice the buffer still holds a NUL, and its C string lost exactly the cut span. */
  lemma SpliceString(b: seq<char>, off: nat, e: nat)
    requires '\0' in b
    requires off <= e && e + 4 <= |CString(b)|
    ensures '\0' in Splice(b, off, e)
    ensures CString(Splice(b, off, e)) == CString(b)[..off] + CString(b)[e + 4..]
  {
    var s := CString(b);
    var rest := b[|s|..];
    assert b == s + rest;
    SpliceShape(s, rest, off, e);
    var kept := s[..off] + s[e + 4..];
    assert '\0' !in kept by {
      assert forall c :: c in kept ==> c in s;
    }
    CStringOfTerminated(kept, rest + Zeros(e + 4 - off));
    assert Splice(b, off, e)[|kept|] == '\0';
  }

  /** Cutting a span out of the text part of a buffer leaves the rest of the buffer behind it. */
  lemma SpliceShape(s: seq<char>, rest: seq<char>, off: nat, e: nat)
    requires off <= e && e + 4 <= |s|
    ensures Splice(s + rest, off, e) == (s[..off] + s[e + 4..]) + (rest + Zeros(e + 4 - off))
  {
    var b := s + rest;
    assert b[..off] == s[..off];
    assert b[e + 4..] == s[e + 4..] + rest;
  }

  /** After the final `memset` the C string ends where the `don't()` began. */
  lemma TruncateString(b: seq<char>, off: nat)
    requires '\0' in b
    requires off + 7 <= |CString(b)|
    ensures off + 7 < |b|
    ensures CString(Truncate(b, off)) == CString(b)[..off]
  {
    var s := CString(b);
    assert |s| < |b|;
    assert b[..off] == s[..off];
    var t := Truncate(b, off);
    assert t == s[..off] + (Zeros(|b| - off - 7) + b[|b| - 7..]);
    CStringOfTerminated(s[..off], Zeros(|b| - off - 7) + b[|b| - 7..]);
  }

  /**
   * The string-level effect of `recover_instructions`: cut the first
   * `don't()` through the next `do()`, and rescan from the beginning; a
   * `don't()` with no later `do()` ends the text.
   */
  function Recovered(s: string): (r: string)
    decreases |s|
    ensures forall q :: !OccursAt(r, STOP, q)
    ensures |r| <= |s|
  {
    match Find(s, STOP, 0)
    case None => s
    case Some(off) =>
      match Find(s, RESUME, off)
      case None =>
        var r := s[..off];
        assert forall q :: !OccursAt(r, STOP, q) by {
          forall q: nat | OccursAt(r, STOP, q) ensures false {
            assert s[q..q + 7] == r[q..q + 7];
            assert OccursAt(s, STOP, q);
          }
        }
        r
      case Some(e) => Recovered(s[..off] + s[e + 4..])
  }

  /** A `don't()` with a later `do()`: the span between them is cut and the text scanned again. */
  lemma RecoveredSplice(s: string, off: nat, e: nat)
    requires Find(s, STOP, 0) == Some(off) && Find(s, RESUME, off) == Some(e)
    ensures off <= e + 4 <= |s| && Recovered(s) == Recovered(s[..off] + s[e + 4..])
  {
  }

  /** A `don't()` with no later `do()`: the text ends where it begins. */
  lemma RecoveredTruncate(s: string, off: nat)
    requires Find(s, STOP, 0) == Some(off) && Find(s, RESUME, off).None?
    ensures off <= |s| && Recovered(s) == s[..off]
  {
  }

  /** The whole buffer after `recover_instructions`, step by step as the loop rewrites it. */
  function RecoverBuf(b: seq<char>): (r: seq<char>)
    requires '\0' in b
    decreases |CString(b)|
    ensures |r| == |b|
  {
    var s := CString(b);
    match Find(s, STOP, 0)
    case None => b
    case Some(off) =>
      match Find(s, RESUME, off)
      case None =>
        TruncateString(b, off);
        Truncate(b, off)
      case Some(e) =>
        SpliceString(b, off, e);
        RecoverBuf(Splice(b, off, e))
  }

  /** The rewritten buffer holds, as its C string, the recovered text. */
  lemma {:induction false} RecoverBufString(b: seq<char>)
    requires '\0' in b
    decreases |CString(b)|
    ensures CString(RecoverBuf(b)) == Recovered(CString(b))
  {
    var s := CString(b);
    match Find(s, STOP, 0)
    case None =>
    case Some(off) =>
      match Find(s, RESUME, off)
      case None =>
        TruncateString(b, off);
        RecoveredTruncate(s, off);
      case Some(e) =>
        SpliceString(b, off, e);
        assert RecoverBuf(b) == RecoverBuf(Splice(b, off, e));
        RecoverBufString(Splice(b, off, e));
        RecoveredSplice(s, off, e);
  }

  /** `memmove(dst, src, n)` with `dst <= src`: a forward copy is safe. */
  method MemMove(buf: array<char>, dst: nat, src: nat, n: nat)
    requires dst <= src && src + n <= buf.Length
    modifies buf
    ensures buf[..] == old(buf[..dst]) + old(buf[src..src + n]) + old(buf[dst + n..])
  {
    ghost var a := buf[..];
    var i := 0;
    while i < n
      invariant i <= n
      invariant forall k :: dst <= k < dst + i ==> buf[k] == a[k - dst + src]
      invariant forall k :: 0 <= k < dst || dst + i <= k < buf.Length ==> buf[k] == a[k]
    {
      buf[dst + i] := buf[src + i];
      i := i + 1;
    }
    MoveShape(a, buf[..], dst, src, n);
  }

  /** A buffer that holds `a` with `n` characters copied from `src` down to `dst`. */
  lemma MoveShape(a: seq<char>, r: seq<char>, dst: nat, src: nat, n: nat)
    requires |r| == |a| && dst <= src && src + n <= |a|
    requires forall k :: dst <= k < dst + n ==> r[k] == a[k - dst + src]
    requires forall k :: 0 <= k < dst || dst + n <= k < |a| ==> r[k] == a[k]
    ensures r == a[..dst] + a[src..src + n] + a[dst + n..]
  {
    var want := a[..dst] + a[src..src + n] + a[dst + n..];
    forall k | 0 <= k < |r|
      ensures r[k] == want[k]
    {
      if k < dst {
        assert want[k] == a[k];
      } else if k < dst + n {
        assert want[k] == a[k - dst + src];
      } else {
        assert want[k] == a[k];
      }
    }
  }

  /** `memset(at, c, n)`. */
  method MemSet(buf: array<char>, at: nat, c: char, n: nat)
    requires at + n <= buf.Length
    modifies buf
    ensures buf[..] == old(buf[..at]) + seq(n, _ => c) + old(buf[at + n..])
  {
    var i := at;
    while i < at + n
      invariant at <= i <= at + n
      invariant forall k :: at <= k < i ==> buf[k] == c
      invariant forall k :: 0 <= k < at || i <= k < buf.Length ==> buf[k] == old(buf[k])
    {
      buf[i] := c;
      i := i + 1;
    }
    assert forall k :: 0 <= k < buf.Length ==>
      buf[..][k] == (old(buf[..at]) + seq(n, _ => c) + old(buf[at + n..]))[k];
  }

  /** The no-`do()` branch: `memset(start, '\0', len - (start - input) - strlen(stop))`. */
  method TruncateAt(buf: array<char>, off: nat)
    requires off + |STOP| <= buf.Length
    modifies buf
    ensures buf[..] == Truncate(old(buf[..]), off)
  {
    MemSet(buf, off, '\0', buf.Length - off - |STOP|);
    assert seq(buf.Length - off - 7, _ => '\0') == Zeros(buf.Length - off - 7);
  }

  /** The `do()` branch: shift the rest left over the span with `memmove`, then clear the tail. */
  method CutSpan(buf: array<char>, off: nat, e: nat)
    requires off <= e && e + |RESUME| <= buf.Length
    modifies buf
    ensures buf[..] == Splice(old(buf[..]), off, e)
  {
    ghost var b := buf[..];
    var len := buf.Length;
    var move := len - e - |RESUME|;
    MemMove(buf, off, e + |RESUME|, move);
    ghost var moved := buf[..];
    assert moved[..off + move] == b[..off] + b[e + 4..] by {
      assert b[e + 4..e + 4 + move] == b[e + 4..];
    }
    var clear := len - move - off;
    MemSet(buf, off + move, '\0', clear);
    assert seq(clear, _ => '\0') == Zeros(e + 4 - off);
    assert moved[off + move + clear..] == [];
  }

  /**
   * `recover_instructions(input, len)`: rewrites the buffer in place until its
   * C string holds no `don't()`; the buffer keeps its length.
   */
  method RecoverInstructions(buf: array<char>, len: nat)
    requires len == buf.Length && '\0' in buf[..]
    modifies buf
    ensures buf[..] == RecoverBuf(old(buf[..]))
    ensures CString(buf[..]) == Recovered(CString(old(buf[..])))
    ensures forall q :: !OccursAt(CString(buf[..]), STOP, q)
  {
    RecoverBufString(buf[..]);
    var start := Find(CString(buf[..]), STOP, 0);
    while start.Some?
      invariant '\0' in buf[..]
      invariant start == Find(CString(buf[..]), STOP, 0)
      invariant RecoverBuf(buf[..]) == RecoverBuf(old(buf[..]))
      decreases |CString(buf[..])|
    {
      var off := start.value;
      var end := Find(CString(buf[..]), RESUME, off);
      ghost var b := buf[..];
      if end.None? {
        TruncateString(b, off);
        TruncateAt(buf, off);
        return;
      }
      var e := end.value;
      SpliceString(b, off, e);
      CutSpan(buf, off, e);
      start := Find(CString(buf[..]), STOP, 0);
    }
  }

  /**
   * `main` after reading the file: the buffer holds the text and one NUL more
   * (`len` is `sizeof(data_buf)`); part 1 parses it, part 2 parses it again
   * after recovery.
   */
  method Solve(buf: array<char>) returns (part1: int, part2: int)
    requires '\0' in buf[..]
    modifies buf
    ensures part1 == Total(CString(old(buf[..])))
    ensures part2 == Total(Recovered(CString(old(buf[..]))))
  {
    part1 := ParseInstructions(buf[..]);
    RecoverInstructions(buf, buf.Length);
    part2 := ParseInstructions(buf[..]);
  }
}
