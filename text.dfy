/**
 * Text primitives shared by the C and Python solutions: searching for a
 * substring (C `strstr`, Python `str.find` and `str.split`) and the value of
 * a run of decimal digits (C `atol`, Python `int`).
 */
module Text {
  import opened Wrappers

  /** `tok` occurs in `s` starting at index `q`. */
  predicate OccursAt(s: string, tok: string, q: nat)
  {
    q + |tok| <= |s| && s[q..q + |tok|] == tok
  }

  /** The first occurrence of `tok` at or after `from`: `strstr(s + from, tok)`, `s.find(tok, from)`. */
  function Find(s: string, tok: string, from: nat): (r: Option<nat>)
    decreases |s| - from
    ensures r.Some? ==> from <= r.value && OccursAt(s, tok, r.value)
    ensures r.Some? ==> forall q :: from <= q < r.value ==> !OccursAt(s, tok, q)
    ensures r.None? ==> forall q :: from <= q ==> !OccursAt(s, tok, q)
  {
    if from + |tok| > |s| then None
    else if s[from..from + |tok|] == tok then Some(from)
    else Find(s, tok, from + 1)
  }

  predicate IsDigit(c: char)
  {
    '0' <= c <= '9'
  }

  predicate AllDigits(d: string)
  {
    forall q :: 0 <= q < |d| ==> IsDigit(d[q])
  }

  /** The value of a string of decimal digits, most significant first; `n` digits stay below `10^n`. */
  function DecimalValue(d: string): (v: nat)
    requires forall q :: 0 <= q < |d| ==> IsDigit(d[q])
    ensures v < Pow10(|d|)
  {
    if d == [] then 0
    else
      var c := d[|d| - 1];
      assert IsDigit(c);
      DecimalValue(d[..|d| - 1]) * 10 + (c as int - '0' as int)
  }

  function Pow10(n: nat): (p: nat)
    ensures p >= 1
  {
    if n == 0 then 1 else 10 * Pow10(n - 1)
  }

  /** Writing `y` after `x` shifts the value of `x` by `|y|` decimal places. */
  lemma {:induction false} DecimalAppend(x: string, y: string)
    requires AllDigits(x) && AllDigits(y)
    ensures AllDigits(x + y)
    ensures DecimalValue(x + y) == DecimalValue(x) * Pow10(|y|) + DecimalValue(y)
  {
    assert AllDigits(x + y) by { AllDigitsAppend(x, y); }
    if y != [] {
      var y' := y[..|y| - 1];
      assert (x + y)[..|x + y| - 1] == x + y';
      assert AllDigits(y');
      DecimalAppend(x, y');
      var c := y[|y| - 1];
      var d := c as int - '0' as int;
      assert DecimalValue(x + y) == DecimalValue(x + y') * 10 + d;
      assert DecimalValue(y) == DecimalValue(y') * 10 + d;
      Shift(DecimalValue(x), Pow10(|y'|), DecimalValue(y'), d);
    } else {
      assert x + y == x;
    }
  }

  /** The arithmetic of appending one digit `d` to a number shifted by `p`. */
  lemma Shift(a: int, p: int, b: int, d: int)
    ensures (a * p + b) * 10 + d == a * (10 * p) + (b * 10 + d)
  {
    calc {
      (a * p + b) * 10 + d;
      (a * p) * 10 + b * 10 + d;
      a * (p * 10) + (b * 10 + d);
    }
  }

  lemma AllDigitsAppend(x: string, y: string)
    requires AllDigits(x) && AllDigits(y)
    ensures AllDigits(x + y)
  {
    forall q | 0 <= q < |x + y|
      ensures IsDigit((x + y)[q])
    {
      if q < |x| { assert (x + y)[q] == x[q]; } else { assert (x + y)[q] == y[q - |x|]; }
    }
  }

  // Proof helpers: sequence identities stated as lemmas so that a caller's
  // proof obligation stays small. They model nothing of the programs.

  lemma HeadTail<T>(s: seq<T>)
    requires s != []
    ensures [s[0]] + s[1..] == s
  {
  }

  lemma EmptyAppend<T>(a: seq<T>, b: seq<T>)
    requires a == []
    ensures a + b == b
  {
  }

  lemma Assoc<T>(a: seq<T>, b: seq<T>, c: seq<T>)
    ensures a + b + c == a + (b + c)
  {
  }
}
