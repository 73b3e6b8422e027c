/**
 * The Python string built-ins the solutions parse their input with:
 * `str.strip()`, `str.split(sep)`, `str.split()`, `int(str)` and `str(int)`,
 * and the two exceptions they raise.
 */
module PyText {
  import opened Wrappers
  import opened Text

  datatype Exc = ValueError | IndexError

  /** `str.isspace()` for one character: the Unicode whitespace Python strips and splits on. */
  predicate IsSpace(c: char)
  {
    var n := c as int;
    9 <= n <= 13 || 28 <= n <= 32 || n == 0x85 || n == 0xA0 || n == 0x1680
    || 0x2000 <= n <= 0x200A || n == 0x2028 || n == 0x2029 || n == 0x202F || n == 0x205F || n == 0x3000
  }

  predicate AllSpace(s: string)
  {
    forall i :: 0 <= i < |s| ==> IsSpace(s[i])
  }

  predicate NoSpace(s: string)
  {
    forall i :: 0 <= i < |s| ==> !IsSpace(s[i])
  }

  // --------------------------------------------------------- list indexing

  /** `s.index(x)` when `x` is present: the first position holding it. */
  function Index<T(==)>(s: seq<T>, x: T): (i: nat)
    requires x in s
    ensures i < |s| && s[i] == x && x !in s[..i]
  {
    if s[0] == x then 0
    else
      var i := Index(s[1..], x) + 1;
      assert s[..i] == [s[0]] + s[1..][..i - 1];
      i
  }

  /** `s.index(x)`, raising ValueError when `x` is absent. */
  function ListIndex<T(==)>(s: seq<T>, x: T): (r: Result<nat, Exc>)
    ensures r.Ok? <==> x in s
    ensures r.Err? ==> r.error == ValueError
    ensures r.Ok? ==> r.value < |s| && s[r.value] == x && x !in s[..r.value]
  {
    if x in s then Ok(Index(s, x)) else Err(ValueError)
  }

  /** `s[i]`: a negative index counts from the end; anything else out of range raises IndexError. */
  function PyAt<T>(s: seq<T>, i: int): (r: Result<T, Exc>)
    ensures r.Ok? <==> -|s| <= i < |s|
    ensures r.Err? ==> r.error == IndexError
    ensures 0 <= i < |s| ==> r == Ok(s[i])
    ensures -|s| <= i < 0 ==> r == Ok(s[|s| + i])
  {
    if 0 <= i < |s| then Ok(s[i])
    else if -|s| <= i < 0 then Ok(s[|s| + i])
    else Err(IndexError)
  }

  // ------------------------------------------------------------------ strip

  /** The number of whitespace characters `s` starts with. */
  function LeadingSpace(s: string): (n: nat)
    ensures n <= |s| && (n < |s| ==> !IsSpace(s[n]))
  {
    if s != [] && IsSpace(s[0]) then 1 + LeadingSpace(s[1..]) else 0
  }

  function TrimLeft(s: string): (r: string)
    ensures |r| <= |s| && r == s[|s| - |r|..]
    ensures r != [] ==> !IsSpace(r[0])
  {
    s[LeadingSpace(s)..]
  }

  /** What `TrimLeft` drops is whitespace. */
  lemma {:induction false} TrimLeftSpace(s: string)
    decreases |s|
    ensures AllSpace(s[..|s| - |TrimLeft(s)|])
  {
    if s != [] && IsSpace(s[0]) {
      TrimLeftSpace(s[1..]);
      assert s[..|s| - |TrimLeft(s)|] == [s[0]] + s[1..][..|s[1..]| - |TrimLeft(s[1..])|];
    }
  }

  function TrimRight(s: string): (r: string)
    ensures |r| <= |s| && r == s[..|r|]
    ensures r != [] ==> !IsSpace(r[|r| - 1])
  {
    if s != [] && IsSpace(s[|s| - 1]) then TrimRight(s[..|s| - 1]) else s
  }

  /** What `TrimRight` drops is whitespace. */
  lemma {:induction false} TrimRightSpace(s: string)
    decreases |s|
    ensures AllSpace(s[|TrimRight(s)|..])
  {
    if s != [] && IsSpace(s[|s| - 1]) {
      var s' := s[..|s| - 1];
      TrimRightSpace(s');
      assert s[|TrimRight(s)|..] == s'[|TrimRight(s')|..] + [s[|s| - 1]];
    }
  }

  /** `s.strip()`: `s` without its leading and trailing whitespace. */
  function Strip(s: string): (r: string)
    ensures r != [] ==> !IsSpace(r[0]) && !IsSpace(r[|r| - 1])
  {
    TrimRight(TrimLeft(s))
  }

  /** `strip()` keeps a middle piece of `s` and drops only whitespace around it. */
  lemma StripCuts(s: string)
    ensures var r := Strip(s);
      exists i :: 0 <= i <= |s| - |r| && r == s[i..i + |r|] && AllSpace(s[..i]) && AllSpace(s[i + |r|..])
  {
    var t := TrimLeft(s);
    var r := TrimRight(t);
    var i := |s| - |t|;
    TrimLeftSpace(s);
    TrimRightSpace(t);
    assert r == s[i..i + |r|];
    assert s[i + |r|..] == t[|r|..];
  }

  /** Text that neither starts nor ends with whitespace is its own `strip()`. */
  lemma StripTrimmed(s: string)
    requires s == [] || (!IsSpace(s[0]) && !IsSpace(s[|s| - 1]))
    ensures Strip(s) == s
  {
  }

  // -------------------------------------------------------------- split(sep)

  /** `s.split(sep)`: the pieces between the non-overlapping occurrences of `sep`, found left to right. */
  function Split(s: string, sep: string): (parts: seq<string>)
    requires |sep| > 0
    decreases |s|
    ensures |parts| >= 1
  {
    match Find(s, sep, 0)
    case None => [s]
    case Some(q) => [s[..q]] + Split(s[q + |sep|..], sep)
  }

  /** `sep.join(parts)`. */
  function Join(parts: seq<string>, sep: string): string
  {
    if parts == [] then []
    else if |parts| == 1 then parts[0]
    else parts[0] + sep + Join(parts[1..], sep)
  }

  lemma JoinCons(head: string, tail: seq<string>, sep: string)
    requires |tail| >= 1
    ensures Join([head] + tail, sep) == head + sep + Join(tail, sep)
  {
    assert ([head] + tail)[1..] == tail;
  }

  /** Splitting loses nothing: joining the pieces with the separator gives the text back. */
  lemma {:induction false} SplitJoin(s: string, sep: string)
    requires |sep| > 0
    decreases |s|
    ensures Join(Split(s, sep), sep) == s
  {
    var f := Find(s, sep, 0);
    if f.Some? {
      var q := f.value;
      var rest := s[q + |sep|..];
      var parts := Split(rest, sep);
      assert Split(s, sep) == [s[..q]] + parts;
      SplitJoin(rest, sep);
      JoinCons(s[..q], parts, sep);
      assert s[q..q + |sep|] == sep;
      assert s[..q] + s[q..q + |sep|] + s[q + |sep|..] == s;
    } else {
      assert Split(s, sep) == [s];
    }
  }

  /** No piece contains the separator. */
  lemma {:induction false} SplitPiecesFree(s: string, sep: string)
    requires |sep| > 0
    decreases |s|
    ensures forall i, q :: 0 <= i < |Split(s, sep)| ==> !OccursAt(Split(s, sep)[i], sep, q)
  {
    match Find(s, sep, 0)
    case None =>
    case Some(p) =>
      var rest := s[p + |sep|..];
      SplitPiecesFree(rest, sep);
      assert Split(s, sep)[1..] == Split(rest, sep);
      var head := s[..p];
      forall q: nat | OccursAt(head, sep, q) ensures false {
        assert head[q..q + |sep|] == s[q..q + |sep|];
        assert OccursAt(s, sep, q);
      }
      forall i, q | 0 <= i < |Split(s, sep)|
        ensures !OccursAt(Split(s, sep)[i], sep, q)
      {
        if i > 0 {
          assert Split(s, sep)[i] == Split(rest, sep)[i - 1];
        }
      }
  }

  /** Text without the separator splits into itself alone. */
  lemma SplitAbsent(s: string, sep: string)
    requires |sep| > 0 && forall q :: !OccursAt(s, sep, q)
    ensures Split(s, sep) == [s]
  {
    match Find(s, sep, 0)
    case None =>
    case Some(q) => assert false;
  }

  lemma OccursChar(s: string, c: char, q: nat)
    ensures OccursAt(s, [c], q) <==> q < |s| && s[q] == c
  {
    if q < |s| {
      assert s[q..q + 1] == [s[q]];
    }
  }

  /** Joining pieces free of a one-character separator and splitting again gives the pieces back. */
  lemma {:induction false} JoinSplit(parts: seq<string>, c: char)
    requires |parts| >= 1 && forall i :: 0 <= i < |parts| ==> c !in parts[i]
    decreases |parts|
    ensures Split(Join(parts, [c]), [c]) == parts
  {
    var head := parts[0];
    if |parts| == 1 {
      forall q: nat ensures !OccursAt(head, [c], q) {
        OccursChar(head, c, q);
      }
      SplitAbsent(head, [c]);
    } else {
      var tail := parts[1..];
      var rest := Join(tail, [c]);
      var s := Join(parts, [c]);
      assert s == head + [c] + rest;
      assert s[|head|..|head| + 1] == [c];
      forall q: nat | q < |head| ensures !OccursAt(s, [c], q) {
        assert s[q] == head[q];
        OccursChar(s, c, q);
      }
      var f := Find(s, [c], 0);
      assert OccursAt(s, [c], |head|);
      assert f.Some?;
      assert f.value <= |head|;
      assert !OccursAt(s, [c], f.value) || f.value >= |head|;
      assert f == Some(|head|);
      assert s[..|head|] == head && s[|head| + 1..] == rest;
      JoinSplit(tail, c);
      assert parts == [head] + tail;
    }
  }

  // ---------------------------------------------------------------- split()

  /** Length of the run of non-whitespace characters at the start of `s`. */
  function WordLen(s: string): (n: nat)
    ensures n <= |s| && NoSpace(s[..n])
    ensures n < |s| ==> IsSpace(s[n])
  {
    if s == [] || IsSpace(s[0]) then 0
    else
      var n := WordLen(s[1..]) + 1;
      assert s[..n] == [s[0]] + s[1..][..n - 1];
      n
  }

  /** `s.split()`: the maximal runs of non-whitespace, with no empty pieces. */
  function Words(s: string): (ws: seq<string>)
    decreases |s|
    ensures forall i :: 0 <= i < |ws| ==> ws[i] != [] && NoSpace(ws[i])
  {
    var t := TrimLeft(s);
    if t == [] then []
    else
      var n := WordLen(t);
      [t[..n]] + Words(t[n..])
  }

  function Concat(ws: seq<string>): string
  {
    if ws == [] then [] else ws[0] + Concat(ws[1..])
  }

  /** `s` with its whitespace dropped. */
  function NonSpace(s: string): string
  {
    if s == [] then [] else (if IsSpace(s[0]) then [] else [s[0]]) + NonSpace(s[1..])
  }

  lemma {:induction false} NonSpaceAppend(x: string, y: string)
    ensures NonSpace(x + y) == NonSpace(x) + NonSpace(y)
  {
    if x == [] {
      assert x + y == y;
    } else {
      assert (x + y)[1..] == x[1..] + y;
      NonSpaceAppend(x[1..], y);
    }
  }

  lemma {:induction false} NonSpaceOf(s: string)
    ensures AllSpace(s) ==> NonSpace(s) == []
    ensures NoSpace(s) ==> NonSpace(s) == s
  {
    if s != [] {
      NonSpaceOf(s[1..]);
      assert AllSpace(s) ==> AllSpace(s[1..]);
      assert NoSpace(s) ==> NoSpace(s[1..]);
      if NoSpace(s) {
        assert s == [s[0]] + s[1..];
      }
    }
  }

  /** The words of `split()` are exactly the non-whitespace characters, in order. */
  lemma {:induction false} WordsKeepText(s: string)
    decreases |s|
    ensures Concat(Words(s)) == NonSpace(s)
  {
    var t := TrimLeft(s);
    var lead := s[..|s| - |t|];
    assert s == lead + t;
    TrimLeftSpace(s);
    NonSpaceAppend(lead, t);
    NonSpaceOf(lead);
    if t != [] {
      var n := WordLen(t);
      assert t == t[..n] + t[n..];
      NonSpaceAppend(t[..n], t[n..]);
      NonSpaceOf(t[..n]);
      WordsKeepText(t[n..]);
      assert Words(s)[1..] == Words(t[n..]);
    }
  }

  // ------------------------------------------------------------ int and str

  /**
   * The digits of an integer literal: digits, each `_` between two digits
   * (the grouping `int()` accepts).
   */
  predicate DigitBody(b: string)
  {
    b != [] && IsDigit(b[0]) && IsDigit(b[|b| - 1])
    && (forall i :: 0 <= i < |b| ==> IsDigit(b[i]) || b[i] == '_')
    && Grouped(b)
  }

  /** Every `_` in `b` is followed by a digit. */
  predicate Grouped(b: string)
    decreases |b|
  {
    |b| < 2 || ((b[0] != '_' || IsDigit(b[1])) && Grouped(b[1..]))
  }

  lemma {:induction false} GroupedDigits(d: string)
    requires AllDigits(d)
    decreases |d|
    ensures Grouped(d)
  {
    if |d| >= 2 {
      assert AllDigits(d[1..]);
      GroupedDigits(d[1..]);
    }
  }

  /** The digits of `b` with the underscores left out. */
  function Digits(b: string): (d: string)
    requires forall i :: 0 <= i < |b| ==> IsDigit(b[i]) || b[i] == '_'
    ensures AllDigits(d) && |d| <= |b|
  {
    if b == [] then []
    else
      var rest := Digits(b[1..]);
      if IsDigit(b[0]) then [b[0]] + rest else rest
  }

  lemma {:induction false} DigitsOfDigits(b: string)
    requires AllDigits(b)
    ensures Digits(b) == b
  {
    if b != [] {
      assert AllDigits(b[1..]);
      DigitsOfDigits(b[1..]);
      assert b == [b[0]] + b[1..];
    }
  }

  /**
   * `int(s)` in base 10: surrounding whitespace is ignored, then an optional
   * sign and a digit body; anything else raises ValueError.
   */
  function ParseInt(s: string): (r: Result<int, Exc>)
    ensures r.Ok? ==> Strip(s) != []
  {
    ParseLiteral(Strip(s))
  }

  /** `int` of text already stripped of surrounding whitespace. */
  function ParseLiteral(t: string): (r: Result<int, Exc>)
    ensures r.Ok? ==> t != []
  {
    if t == [] then Err(ValueError)
    else
      var neg := t[0] == '-';
      var body := if t[0] == '-' || t[0] == '+' then t[1..] else t;
      if !DigitBody(body) then Err(ValueError)
      else
        var v: int := DecimalValue(Digits(body));
        Ok(if neg then -v else v)
  }

  lemma DigitBodyOfDigits(d: string)
    requires d != [] && AllDigits(d)
    ensures DigitBody(d) && Digits(d) == d
  {
    GroupedDigits(d);
    DigitsOfDigits(d);
  }

  /** `str(n)` for `n >= 0`: decimal digits, no leading zero. */
  function NatStr(n: nat): (s: string)
    ensures s != [] && AllDigits(s) && DecimalValue(s) == n
    ensures |s| > 1 ==> s[0] != '0'
  {
    var c := ('0' as int + n % 10) as char;
    if n < 10 then
      assert DecimalValue([c]) == DecimalValue([]) * 10 + (c as int - '0' as int);
      [c]
    else
      var h := NatStr(n / 10);
      var s := h + [c];
      assert s[..|s| - 1] == h;
      assert AllDigits(s) by {
        forall q | 0 <= q < |s| ensures IsDigit(s[q]) {
          if q < |h| { assert s[q] == h[q]; }
        }
      }
      s
  }

  /** `str(n)`: a minus sign for negative numbers, then the digits. */
  function Str(n: int): string
  {
    if n < 0 then "-" + NatStr(-n) else NatStr(n)
  }

  /** `list(map(int, parts))`: the first ValueError, if any, is raised. */
  function ParseInts(parts: seq<string>): (r: Result<seq<int>, Exc>)
    ensures r.Ok? ==> |r.value| == |parts| && forall i :: 0 <= i < |parts| ==> ParseInt(parts[i]) == Ok(r.value[i])
    ensures r.Err? ==> r.error == ValueError
  {
    if parts == [] then Ok([])
    else
      match ParseInt(parts[0])
      case Err(e) => Err(e)
      case Ok(v) =>
        match ParseInts(parts[1..])
        case Err(e) => Err(e)
        case Ok(vs) => Ok([v] + vs)
  }

  /** `str` of every number. */
  function StrAll(u: seq<int>): (r: seq<string>)
    ensures |r| == |u| && forall i :: 0 <= i < |u| ==> r[i] == Str(u[i])
  {
    if u == [] then [] else [Str(u[0])] + StrAll(u[1..])
  }

  lemma StrFree(n: int, c: char)
    requires !IsDigit(c) && c != '-'
    ensures c !in Str(n)
  {
    StrShape(n);
  }

  lemma ParseIntsOfStrAll(u: seq<int>)
    ensures ParseInts(StrAll(u)) == Ok(u)
  {
    var t := StrAll(u);
    forall i | 0 <= i < |u|
      ensures ParseInt(t[i]) == Ok(u[i])
    {
      ParseIntOfStr(u[i]);
    }
    ParseIntsOfAll(t, u);
  }

  /** Pieces that each read as the matching number read, together, as the list of them. */
  lemma {:induction false} ParseIntsOfAll(parts: seq<string>, u: seq<int>)
    requires |parts| == |u| && forall i :: 0 <= i < |u| ==> ParseInt(parts[i]) == Ok(u[i])
    ensures ParseInts(parts) == Ok(u)
  {
    if u != [] {
      ParseIntsOfAll(parts[1..], u[1..]);
      assert ParseInts(parts) == Ok([u[0]] + u[1..]);
      HeadTail(u);
    }
  }

  /** Each word preceded by one space: how the puzzle inputs write a list of numbers after a label. */
  function Spaced(ws: seq<string>): string
  {
    if ws == [] then [] else " " + ws[0] + Spaced(ws[1..])
  }

  /** `split()` takes the space-separated words back apart. */
  lemma {:induction false} WordsOfSpaced(ws: seq<string>)
    requires forall i :: 0 <= i < |ws| ==> ws[i] != [] && NoSpace(ws[i])
    ensures Words(Spaced(ws)) == ws
  {
    if ws != [] {
      var w, rest := ws[0], Spaced(ws[1..]);
      var t := w + rest;
      var s := " " + t;
      assert Spaced(ws) == s;
      assert TrimLeft(s) == t by {
        assert s[0] == ' ' && s[1..] == t;
        assert LeadingSpace(t) == 0;
        assert LeadingSpace(s) == 1;
      }
      assert WordLen(t) == |w| by { WordAt(w, rest); }
      assert t[..|w|] == w && t[|w|..] == rest;
      assert Words(s) == [w] + Words(rest);
      WordsOfSpaced(ws[1..]);
      HeadTail(ws);
    }
  }

  /** A word followed by nothing or by a space is taken whole. */
  lemma {:induction false} WordAt(w: string, rest: string)
    requires NoSpace(w)
    requires rest == [] || IsSpace(rest[0])
    ensures WordLen(w + rest) == |w|
  {
    if w != [] {
      assert (w + rest)[1..] == w[1..] + rest;
      WordAt(w[1..], rest);
    } else {
      assert w + rest == rest;
    }
  }

  /** `str(n)` has no whitespace. */
  lemma StrNoSpace(n: int)
    ensures NoSpace(Str(n))
  {
    StrShape(n);
  }

  /** `list(map(int, parts))` fails only where some part is not an integer. */
  lemma {:induction false} ParseIntsFails(parts: seq<string>)
    requires ParseInts(parts).Err?
    ensures exists i :: 0 <= i < |parts| && ParseInt(parts[i]).Err?
  {
    if ParseInt(parts[0]).Ok? {
      ParseIntsFails(parts[1..]);
      var i :| 0 <= i < |parts[1..]| && ParseInt(parts[1..][i]).Err?;
      assert ParseInt(parts[i + 1]).Err?;
    }
  }

  /** `str(n)` is an optional minus sign followed by digits. */
  lemma StrShape(n: int)
    ensures Str(n) != [] && IsDigit(Str(n)[|Str(n)| - 1])
    ensures IsDigit(Str(n)[0]) || Str(n)[0] == '-'
    ensures forall i :: 0 <= i < |Str(n)| ==> IsDigit(Str(n)[i]) || Str(n)[i] == '-'
  {
    var d := NatStr(if n < 0 then -n else n);
    assert IsDigit(d[|d| - 1]);
  }

  lemma ParseLiteralOfDigits(d: string)
    requires d != [] && AllDigits(d)
    ensures ParseLiteral(d) == Ok(DecimalValue(d))
    ensures ParseLiteral("-" + d) == Ok(-(DecimalValue(d) as int))
  {
    DigitBodyOfDigits(d);
    assert IsDigit(d[0]);
    assert ("-" + d)[1..] == d;
  }

  /** A minus sign and a run of digits read as the negated value. */
  lemma ParseIntOfNegDigits(d: string)
    requires d != [] && AllDigits(d)
    ensures ParseInt("-" + d) == Ok(-(DecimalValue(d) as int))
  {
    assert IsDigit(d[|d| - 1]);
    assert ("-" + d)[|d|] == d[|d| - 1];
    ParseIntOfLiteral("-" + d);
    ParseLiteralOfDigits(d);
  }

  /** A `-` after the first character makes the text no integer literal. */
  lemma InnerMinusRaises(x: string, y: string)
    requires x != [] && x[0] != '+'
    ensures ParseLiteral(x + "-" + y) == Err(ValueError)
  {
    var s := x + "-" + y;
    var body := if s[0] == '-' then s[1..] else s;
    var k := if s[0] == '-' then |x| - 1 else |x|;
    assert body[k] == '-';
  }

  /** `int(str(n)) == n`. */
  lemma ParseIntOfStr(n: int)
    ensures ParseInt(Str(n)) == Ok(n)
  {
    StrShape(n);
    ParseIntOfLiteral(Str(n));
    ParseLiteralOfStr(n);
  }

  lemma ParseLiteralOfStr(n: int)
    ensures ParseLiteral(Str(n)) == Ok(n)
  {
    var d := NatStr(if n < 0 then -n else n);
    ParseLiteralOfDigits(d);
  }

  /** Text with no surrounding whitespace is read as it stands. */
  lemma ParseIntOfLiteral(s: string)
    requires s != [] && !IsSpace(s[0]) && !IsSpace(s[|s| - 1])
    ensures ParseInt(s) == ParseLiteral(s)
  {
    StripTrimmed(s);
  }

  /** A plain run of digits reads as its decimal value. */
  lemma ParseIntOfDigits(d: string)
    requires d != [] && AllDigits(d)
    ensures ParseInt(d) == Ok(DecimalValue(d))
  {
    assert IsDigit(d[0]) && IsDigit(d[|d| - 1]);
    StripTrimmed(d);
    ParseLiteralOfDigits(d);
  }
}
