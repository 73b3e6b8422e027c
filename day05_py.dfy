/**
 * Day 5, Python solution: ordering rules `x|y` followed by updates
 * `a,b,c`. `parse_ordering` builds, rule by rule, a list of the update's
 * pages in which each rule it has applied puts `x` before `y`; an update
 * that equals its own list adds its middle page to the sum.
 */
module Day05Py {
  import opened Wrappers
  import opened Text
  import opened PyText

  type Rule = (int, int)

  // ------------------------------------------------------ Python list methods

  predicate NoDup(s: seq<int>)
  {
    forall i, j :: 0 <= i < j < |s| ==> s[i] != s[j]
  }

  lemma {:induction false} IndexOfNoDup(s: seq<int>, i: nat)
    requires NoDup(s) && i < |s|
    ensures Index(s, s[i]) == i
  {
    if i > 0 {
      assert s[0] != s[i];
      assert s[1..][i - 1] == s[i];
      IndexOfNoDup(s[1..], i - 1);
    }
  }

  /** `s.insert(i, x)`. */
  function InsertAt(s: seq<int>, i: nat, x: int): (r: seq<int>)
    requires i <= |s|
    ensures |r| == |s| + 1 && r[i] == x
    ensures forall v :: v in r <==> v in s || v == x
  {
    assert s == s[..i] + s[i..];
    s[..i] + [x] + s[i..]
  }

  /** `s.remove(x)`: drop the first `x`. */
  function RemoveFirst(s: seq<int>, x: int): (r: seq<int>)
    requires x in s
    ensures |r| == |s| - 1
  {
    var i := Index(s, x);
    s[..i] + s[i + 1..]
  }

  /** `s` without any `x`: the relative order of everything else. */
  function Without(s: seq<int>, x: int): (r: seq<int>)
    ensures x !in r
  {
    if s == [] then [] else (if s[0] == x then [] else [s[0]]) + Without(s[1..], x)
  }

  lemma {:induction false} WithoutAppend(a: seq<int>, b: seq<int>, x: int)
    ensures Without(a + b, x) == Without(a, x) + Without(b, x)
  {
    if a == [] {
      assert a + b == b;
    } else {
      assert (a + b)[1..] == a[1..] + b;
      WithoutAppend(a[1..], b, x);
    }
  }

  lemma WithoutSingle(v: int, x: int)
    ensures Without([v], x) == if v == x then [] else [v]
  {
    assert [v][1..] == [];
  }

  lemma WithoutX(a: seq<int>, x: int)
    ensures Without(a + [x], x) == Without(a, x)
  {
    WithoutAppend(a, [x], x);
    WithoutSingle(x, x);
    assert Without(a, x) + [] == Without(a, x);
  }

  // ----------------------------------------------------------- parse_ordering

  /** `x in pages and y in pages`: the rule concerns this update. */
  predicate Applies(rule: Rule, pages: seq<int>)
  {
    rule.0 in pages && rule.1 in pages
  }

  /** One pass of the `for x, y in instructions` loop of `parse_ordering`. */
  function Step(o: seq<int>, pages: seq<int>, rule: Rule): seq<int>
  {
    var (x, y) := rule;
    if !Applies(rule, pages) then o
    else
      var o1 := if y !in o then o + [y] else o;
      if x !in o1 then InsertAt(o1, Index(o1, y), x)
      else if Index(o1, x) > Index(o1, y) then
        var o2 := RemoveFirst(o1, x);
        assert y in o2 by {
          var ix := Index(o1, x);
          assert o1[Index(o1, y)] == y;
          assert Index(o1, y) < ix;
          assert o2[Index(o1, y)] == y;
        }
        InsertAt(o2, Index(o2, y), x)
      else o1
  }

  /** The list `parse_ordering` returns after the first rules of `rules`. */
  function Ordering(pages: seq<int>, rules: seq<Rule>): seq<int>
  {
    if rules == [] then []
    else Step(Ordering(pages, rules[..|rules| - 1]), pages, rules[|rules| - 1])
  }

  /** `y` is appended when missing: the list the rest of a step works on. */
  function WithY(o: seq<int>, y: int): (o1: seq<int>)
    ensures y in o1
  {
    if y !in o then o + [y] else o
  }

  lemma NoDupWithY(o: seq<int>, y: int)
    requires NoDup(o)
    ensures NoDup(WithY(o, y))
  {
  }

  lemma NoDupInsert(s: seq<int>, i: nat, x: int)
    requires NoDup(s) && x !in s && i <= |s|
    ensures NoDup(InsertAt(s, i, x))
  {
    var r := InsertAt(s, i, x);
    forall a, b | 0 <= a < b < |r| ensures r[a] != r[b] {
      if a < i && b > i {
        assert r[a] == s[a] && r[b] == s[b - 1];
      } else if b < i {
        assert r[a] == s[a] && r[b] == s[b];
      } else if a > i {
        assert r[a] == s[a - 1] && r[b] == s[b - 1];
      } else if a == i {
        assert r[b] == s[b - 1];
      } else {
        assert r[a] == s[a];
      }
    }
  }

  /** Removing the element at `i` of a duplicate-free list. */
  lemma RemoveAtFacts(s: seq<int>, i: nat)
    requires NoDup(s) && i < |s|
    ensures NoDup(s[..i] + s[i + 1..])
    ensures forall v :: v in s[..i] + s[i + 1..] <==> v in s && v != s[i]
  {
    var r := s[..i] + s[i + 1..];
    forall a, b | 0 <= a < b < |r| ensures r[a] != r[b] {
      if b < i {
        assert r[a] == s[a] && r[b] == s[b];
      } else if a >= i {
        assert r[a] == s[a + 1] && r[b] == s[b + 1];
      } else {
        assert r[a] == s[a] && r[b] == s[b + 1];
      }
    }
    forall v ensures v in r <==> v in s && v != s[i] {
      if v in r {
        var k :| 0 <= k < |r| && r[k] == v;
        if k < i { assert s[k] == v; } else { assert s[k + 1] == v; }
      }
      if v in s && v != s[i] {
        var k :| 0 <= k < |s| && s[k] == v;
        if k < i { assert r[k] == v; } else { assert r[k - 1] == v; }
      }
    }
  }

  /** What one applied rule does to the list. */
  lemma StepFacts(o: seq<int>, pages: seq<int>, rule: Rule)
    requires NoDup(o) && Applies(rule, pages)
    ensures var r := Step(o, pages, rule);
      NoDup(r)
      && (forall v :: v in r <==> v in o || v == rule.0 || v == rule.1)
      && Index(r, rule.0) <= Index(r, rule.1)
      && (rule.0 != rule.1 ==> Index(r, rule.0) < Index(r, rule.1))
  {
    var (x, y) := rule;
    var o1 := WithY(o, y);
    NoDupWithY(o, y);
    if x !in o1 {
      InsertBefore(o1, x, y);
      assert Step(o, pages, rule) == InsertAt(o1, Index(o1, y), x);
    } else if Index(o1, x) > Index(o1, y) {
      var ix := Index(o1, x);
      var o2 := RemoveFirst(o1, x);
      RemoveAtFacts(o1, ix);
      InsertBefore(o2, x, y);
      assert Step(o, pages, rule) == InsertAt(o2, Index(o2, y), x);
    } else {
      assert Step(o, pages, rule) == o1;
    }
  }

  lemma WithoutInsert(s: seq<int>, i: nat, x: int)
    requires i <= |s|
    ensures Without(InsertAt(s, i, x), x) == Without(s, x)
  {
    var a, b := s[..i], s[i..];
    assert InsertAt(s, i, x) == a + [x] + b;
    WithoutX(a, x);
    WithoutAppend(a + [x], b, x);
    WithoutAppend(a, b, x);
    assert s == a + b;
  }

  lemma WithoutRemove(s: seq<int>, i: nat, x: int)
    requires i < |s| && s[i] == x
    ensures Without(s[..i] + s[i + 1..], x) == Without(s, x)
  {
    var a, b := s[..i], s[i + 1..];
    assert s == a + [x] + b;
    WithoutX(a, x);
    WithoutAppend(a + [x], b, x);
    WithoutAppend(a, b, x);
  }

  /** Inserting a new `x` just before `y` in a duplicate-free list. */
  lemma InsertBefore(s: seq<int>, x: int, y: int)
    requires NoDup(s) && y in s && x !in s
    ensures NoDup(InsertAt(s, Index(s, y), x))
    ensures Index(InsertAt(s, Index(s, y), x), x) + 1 == Index(InsertAt(s, Index(s, y), x), y)
    ensures Without(InsertAt(s, Index(s, y), x), x) == Without(s, x)
  {
    var iy := Index(s, y);
    var r := InsertAt(s, iy, x);
    NoDupInsert(s, iy, x);
    assert r[iy + 1] == y;
    IndexOfNoDup(r, iy);
    IndexOfNoDup(r, iy + 1);
    WithoutInsert(s, iy, x);
  }

  /**
   * When the rule moves or inserts `x`, it lands immediately before `y`,
   * and the other pages keep their relative order.
   */
  lemma StepPlacesBeforeY(o: seq<int>, pages: seq<int>, rule: Rule)
    requires NoDup(o) && Applies(rule, pages) && rule.0 != rule.1
    requires rule.0 !in o || (rule.1 in o && Index(o, rule.0) > Index(o, rule.1))
    ensures Index(Step(o, pages, rule), rule.0) + 1 == Index(Step(o, pages, rule), rule.1)
    ensures Without(Step(o, pages, rule), rule.0) == Without(WithY(o, rule.1), rule.0)
  {
    var (x, y) := rule;
    var o1 := WithY(o, y);
    NoDupWithY(o, y);
    if x !in o1 {
      InsertBefore(o1, x, y);
      assert Step(o, pages, rule) == InsertAt(o1, Index(o1, y), x);
    } else {
      var ix := Index(o1, x);
      var o2 := RemoveFirst(o1, x);
      RemoveAtFacts(o1, ix);
      InsertBefore(o2, x, y);
      WithoutRemove(o1, ix, x);
      assert o2 == o1[..ix] + o1[ix + 1..];
      assert Step(o, pages, rule) == InsertAt(o2, Index(o2, y), x);
      assert Without(o2, x) == Without(o1, x);
    }
  }

  /** A rule that does not concern the update changes nothing. */
  lemma StepIgnores(o: seq<int>, pages: seq<int>, rule: Rule)
    requires !Applies(rule, pages)
    ensures Step(o, pages, rule) == o
  {
  }

  /**
   * The result of `parse_ordering` lists, once each, exactly the pages named
   * by the rules that concern the update; so every page of it is a page of
   * the update.
   */
  lemma {:induction false} OrderingFacts(pages: seq<int>, rules: seq<Rule>)
    ensures NoDup(Ordering(pages, rules))
    ensures forall v :: v in Ordering(pages, rules) <==>
      exists k :: 0 <= k < |rules| && Applies(rules[k], pages) && (v == rules[k].0 || v == rules[k].1)
    ensures forall v :: v in Ordering(pages, rules) ==> v in pages
  {
    if rules != [] {
      var init := rules[..|rules| - 1];
      var rule := rules[|rules| - 1];
      OrderingFacts(pages, init);
      var o := Ordering(pages, init);
      if Applies(rule, pages) {
        StepFacts(o, pages, rule);
      }
      forall v ensures v in Ordering(pages, rules) <==>
        exists k :: 0 <= k < |rules| && Applies(rules[k], pages) && (v == rules[k].0 || v == rules[k].1)
      {
        if v in Ordering(pages, rules) {
          if v in o {
            var k :| 0 <= k < |init| && Applies(init[k], pages) && (v == init[k].0 || v == init[k].1);
            assert rules[k] == init[k];
          } else {
            assert Applies(rules[|rules| - 1], pages);
          }
        }
        if exists k :: 0 <= k < |rules| && Applies(rules[k], pages) && (v == rules[k].0 || v == rules[k].1) {
          var k :| 0 <= k < |rules| && Applies(rules[k], pages) && (v == rules[k].0 || v == rules[k].1);
          if k < |init| {
            assert rules[k] == init[k];
          }
        }
      }
    }
  }

  /** The last rule applied is respected by the final list. */
  lemma OrderingLastRule(pages: seq<int>, rules: seq<Rule>)
    requires rules != [] && Applies(rules[|rules| - 1], pages)
    ensures rules[|rules| - 1].0 in Ordering(pages, rules) && rules[|rules| - 1].1 in Ordering(pages, rules)
    ensures Index(Ordering(pages, rules), rules[|rules| - 1].0) <= Index(Ordering(pages, rules), rules[|rules| - 1].1)
  {
    OrderingFacts(pages, rules[..|rules| - 1]);
    StepFacts(Ordering(pages, rules[..|rules| - 1]), pages, rules[|rules| - 1]);
  }

  /** One pass of the loop of `parse_ordering`, on the list as it stands. */
  method ApplyRule(output: seq<int>, pages: seq<int>, rule: Rule) returns (r: seq<int>)
    ensures r == Step(output, pages, rule)
  {
    var (x, y) := rule;
    r := output;
    if x in pages && y in pages {
      if y !in r {
        r := r + [y];
      }
      if x !in r {
        var i := Index(r, y);
        r := r[..i] + [x] + r[i..];
      } else if Index(r, x) > Index(r, y) {
        r := RemoveFirst(r, x);
        var i := Index(r, y);
        r := r[..i] + [x] + r[i..];
      }
    }
  }

  /** `parse_ordering`: the list built in place with `append`, `insert` and `remove`. */
  method ParseOrdering(pages: seq<int>, instructions: seq<Rule>) returns (output: seq<int>)
    ensures output == Ordering(pages, instructions)
    ensures NoDup(output) && forall v :: v in output ==> v in pages
  {
    output := [];
    var k := 0;
    while k < |instructions|
      invariant k <= |instructions|
      invariant output == Ordering(pages, instructions[..k])
    {
      output := ApplyRule(output, pages, instructions[k]);
      assert instructions[..k + 1][..k] == instructions[..k];
      k := k + 1;
    }
    assert instructions[..|instructions|] == instructions;
    OrderingFacts(pages, instructions);
  }

  // ------------------------------------------------------------- the answer

  /** An update is correctly ordered when the rules rebuild it exactly. */
  predicate InOrder(update: seq<int>, rules: seq<Rule>)
  {
    Ordering(update, rules) == update
  }

  /** The sum of the middle pages of the correctly ordered updates. */
  function MiddleSum(rules: seq<Rule>, updates: seq<seq<int>>): int
    requires forall i :: 0 <= i < |updates| ==> updates[i] != []
  {
    if updates == [] then 0
    else
      var last := updates[|updates| - 1];
      MiddleSum(rules, updates[..|updates| - 1]) + (if InOrder(last, rules) then last[|last| / 2] else 0)
  }

  /**
   * A counted update repeats no page, and every one of its pages is named by
   * some rule that concerns it.
   */
  lemma InOrderFacts(update: seq<int>, rules: seq<Rule>)
    requires InOrder(update, rules)
    ensures NoDup(update)
    ensures forall v :: v in update ==>
      exists k :: 0 <= k < |rules| && Applies(rules[k], update) && (v == rules[k].0 || v == rules[k].1)
  {
    OrderingFacts(update, rules);
  }

  /** An update with a page that no rule concerns is never counted. */
  lemma UncoveredNotInOrder(update: seq<int>, rules: seq<Rule>, v: int)
    requires v in update
    requires forall k :: 0 <= k < |rules| && Applies(rules[k], update) ==> v != rules[k].0 && v != rules[k].1
    ensures !InOrder(update, rules)
  {
    OrderingFacts(update, rules);
  }

  /** The loop of `main` over the updates. */
  method SumMiddles(instructions: seq<Rule>, updates: seq<seq<int>>) returns (middleSums: int)
    requires forall i :: 0 <= i < |updates| ==> updates[i] != []
    ensures middleSums == MiddleSum(instructions, updates)
  {
    middleSums := 0;
    for k := 0 to |updates|
      invariant middleSums == MiddleSum(instructions, updates[..k])
    {
      assert updates[..k + 1][..k] == updates[..k];
      var update := updates[k];
      var finalOrder := ParseOrdering(update, instructions);
      if finalOrder == update {
        var middle := update[|update| / 2];
        middleSums := middleSums + middle;
      }
    }
    assert updates[..|updates|] == updates;
  }

  // -------------------------------------------------------------- parse_input

  datatype Parsed = Parsed(inRules: bool, instructions: seq<Rule>, updates: seq<seq<int>>)

  /** One line of the `for line in s` loop of `parse_input`. */
  function ParseLine(st: Parsed, raw: string): Result<Parsed, Exc>
  {
    var line := Strip(raw);
    if line == "" then Ok(st.(inRules := false))
    else if st.inRules then
      var parts := Split(line, "|");
      if |parts| != 2 then Err(ValueError)
      else
        match ParseInt(parts[0])
        case Err(e) => Err(e)
        case Ok(x) =>
          match ParseInt(parts[1])
          case Err(e) => Err(e)
          case Ok(y) => Ok(st.(instructions := st.instructions + [(x, y)]))
    else
      match ParseInts(Split(line, ","))
      case Err(e) => Err(e)
      case Ok(u) => Ok(st.(updates := st.updates + [u]))
  }

  function ParseFrom(st: Parsed, lines: seq<string>): Result<Parsed, Exc>
    decreases |lines|
  {
    if lines == [] then Ok(st)
    else
      match ParseLine(st, lines[0])
      case Err(e) => Err(e)
      case Ok(st') => ParseFrom(st', lines[1..])
  }

  const START: Parsed := Parsed(true, [], [])

  /** `parse_input`: rules up to the first blank line, updates after it. */
  method ParseInput(s: seq<string>) returns (r: Result<(seq<Rule>, seq<seq<int>>), Exc>)
    ensures ParseFrom(START, s).Err? ==> r == Err(ParseFrom(START, s).error)
    ensures ParseFrom(START, s).Ok? ==>
      r == Ok((ParseFrom(START, s).value.instructions, ParseFrom(START, s).value.updates))
  {
    var parseInstructions := true;
    var instructions: seq<Rule> := [];
    var updates: seq<seq<int>> := [];
    for k := 0 to |s|
      invariant ParseFrom(START, s) == ParseFrom(Parsed(parseInstructions, instructions, updates), s[k..])
    {
      assert s[k..][1..] == s[k + 1..];
      var line := Strip(s[k]);
      if line == "" {
        parseInstructions := false;
        continue;
      }
      if parseInstructions {
        var parts := Split(line, "|");
        if |parts| != 2 {
          return Err(ValueError);
        }
        var x := ParseInt(parts[0]);
        if x.Err? {
          return Err(x.error);
        }
        var y := ParseInt(parts[1]);
        if y.Err? {
          return Err(y.error);
        }
        instructions := instructions + [(x.value, y.value)];
        continue;
      }
      var u := ParseInts(Split(line, ","));
      if u.Err? {
        return Err(u.error);
      }
      updates := updates + [u.value];
    }
    return Ok((instructions, updates));
  }

  // ------------------------------------------------- printing and re-reading

  /** A rule written as `x|y`. */
  function RuleLine(rule: Rule): string
  {
    Str(rule.0) + "|" + Str(rule.1)
  }

  /** An update written as `a,b,c`. */
  function UpdateLine(u: seq<int>): string
  {
    Join(StrAll(u), ",")
  }

  function RuleLines(rules: seq<Rule>): (r: seq<string>)
    ensures |r| == |rules|
  {
    if rules == [] then [] else [RuleLine(rules[0])] + RuleLines(rules[1..])
  }

  function UpdateLines(updates: seq<seq<int>>): (r: seq<string>)
    ensures |r| == |updates|
  {
    if updates == [] then [] else [UpdateLine(updates[0])] + UpdateLines(updates[1..])
  }

  /** The puzzle input: the rules, a blank line, then the updates. */
  function InputLines(rules: seq<Rule>, updates: seq<seq<int>>): seq<string>
  {
    RuleLines(rules) + [""] + UpdateLines(updates)
  }

  /** The first and last characters of a join come from the first and last pieces. */
  lemma {:induction false} JoinEnds(parts: seq<string>, sep: string)
    requires |parts| >= 1 && forall i :: 0 <= i < |parts| ==> parts[i] != []
    ensures Join(parts, sep) != []
    ensures Join(parts, sep)[0] == parts[0][0]
    ensures Join(parts, sep)[|Join(parts, sep)| - 1] == parts[|parts| - 1][|parts[|parts| - 1]| - 1]
  {
    if |parts| > 1 {
      JoinEnds(parts[1..], sep);
    }
  }

  /** A rule line is already stripped and splits at its one `|`. */
  lemma RuleLineText(rule: Rule)
    ensures Strip(RuleLine(rule)) == RuleLine(rule)
    ensures Split(RuleLine(rule), "|") == [Str(rule.0), Str(rule.1)]
  {
    RuleLineStripped(rule);
    RuleLineSplits(rule);
  }

  lemma RuleLineSplits(rule: Rule)
    ensures Split(RuleLine(rule), "|") == [Str(rule.0), Str(rule.1)]
  {
    var parts := [Str(rule.0), Str(rule.1)];
    StrFree(rule.0, '|');
    StrFree(rule.1, '|');
    assert '|' !in parts[0] && '|' !in parts[1];
    assert Join(parts, "|") == RuleLine(rule) by {
      assert parts[1..] == [Str(rule.1)];
    }
    JoinSplit(parts, '|');
  }

  lemma RuleLineStripped(rule: Rule)
    ensures Strip(RuleLine(rule)) == RuleLine(rule)
  {
    var line := RuleLine(rule);
    StrShape(rule.0);
    StrShape(rule.1);
    assert line[0] == Str(rule.0)[0];
    assert line[|line| - 1] == Str(rule.1)[|Str(rule.1)| - 1];
    StripTrimmed(line);
  }

  lemma RuleLineParses(st: Parsed, rule: Rule)
    requires st.inRules
    ensures ParseLine(st, RuleLine(rule)) == Ok(st.(instructions := st.instructions + [rule]))
  {
    RuleLineText(rule);
    ParseIntOfStr(rule.0);
    ParseIntOfStr(rule.1);
  }

  /** An update line is already stripped and splits at its commas. */
  lemma UpdateLineText(u: seq<int>)
    requires u != []
    ensures Strip(UpdateLine(u)) == UpdateLine(u)
    ensures Split(UpdateLine(u), ",") == StrAll(u)
  {
    var parts := StrAll(u);
    StrShape(u[0]);
    StrShape(u[|u| - 1]);
    forall i | 0 <= i < |parts| ensures parts[i] != [] && ',' !in parts[i] {
      StrShape(u[i]);
      StrFree(u[i], ',');
    }
    JoinEnds(parts, ",");
    StripTrimmed(UpdateLine(u));
    JoinSplit(parts, ',');
  }

  lemma UpdateLineParses(st: Parsed, u: seq<int>)
    requires !st.inRules && u != []
    ensures ParseLine(st, UpdateLine(u)) == Ok(st.(updates := st.updates + [u]))
  {
    UpdateLineText(u);
    ParseIntsOfStrAll(u);
  }

  lemma ParseFromLine(st: Parsed, line: string, tail: seq<string>, st': Parsed)
    requires ParseLine(st, line) == Ok(st')
    ensures ParseFrom(st, [line] + tail) == ParseFrom(st', tail)
  {
    ParseFromCons(st, [line] + tail, st');
    assert ([line] + tail)[1..] == tail;
  }

  lemma ParseFromCons(st: Parsed, lines: seq<string>, st': Parsed)
    requires lines != [] && ParseLine(st, lines[0]) == Ok(st')
    ensures ParseFrom(st, lines) == ParseFrom(st', lines[1..])
  {
  }

  lemma RuleLineStep(st: Parsed, rules: seq<Rule>, rest: seq<string>)
    requires st.inRules && rules != []
    ensures ParseFrom(st, RuleLines(rules) + rest)
      == ParseFrom(st.(instructions := st.instructions + [rules[0]]), RuleLines(rules[1..]) + rest)
  {
    RuleLinesCons(rules, rest);
    RuleLineFrom(st, rules[0], RuleLines(rules[1..]) + rest);
  }

  lemma RuleLinesCons(rules: seq<Rule>, rest: seq<string>)
    requires rules != []
    ensures RuleLines(rules) + rest == [RuleLine(rules[0])] + (RuleLines(rules[1..]) + rest)
  {
    assert RuleLines(rules) == [RuleLine(rules[0])] + RuleLines(rules[1..]);
    Assoc([RuleLine(rules[0])], RuleLines(rules[1..]), rest);
  }

  lemma RuleLineFrom(st: Parsed, rule: Rule, tail: seq<string>)
    requires st.inRules
    ensures ParseFrom(st, [RuleLine(rule)] + tail) == ParseFrom(st.(instructions := st.instructions + [rule]), tail)
  {
    RuleLineParses(st, rule);
    ParseFromLine(st, RuleLine(rule), tail, st.(instructions := st.instructions + [rule]));
  }

  lemma {:induction false} RuleLinesParse(st: Parsed, rules: seq<Rule>, rest: seq<string>)
    requires st.inRules
    decreases |rules|
    ensures ParseFrom(st, RuleLines(rules) + rest) == ParseFrom(st.(instructions := st.instructions + rules), rest)
  {
    if rules == [] {
      assert RuleLines(rules) + rest == rest;
      assert st.instructions + rules == st.instructions;
    } else {
      var st' := st.(instructions := st.instructions + [rules[0]]);
      assert st'.instructions + rules[1..] == st.instructions + rules by {
        assert rules == [rules[0]] + rules[1..];
      }
      RuleLineStep(st, rules, rest);
      RuleLinesParse(st', rules[1..], rest);
    }
  }

  lemma {:induction false} UpdateLinesParse(st: Parsed, updates: seq<seq<int>>)
    requires !st.inRules
    requires forall i :: 0 <= i < |updates| ==> updates[i] != []
    decreases |updates|
    ensures ParseFrom(st, UpdateLines(updates)) == Ok(st.(updates := st.updates + updates))
  {
    if updates == [] {
      assert st.updates + updates == st.updates;
    } else {
      var u := updates[0];
      var st' := st.(updates := st.updates + [u]);
      assert UpdateLines(updates) == [UpdateLine(u)] + UpdateLines(updates[1..]);
      UpdateLineParses(st, u);
      ParseFromLine(st, UpdateLine(u), UpdateLines(updates[1..]), st');
      HeadTail(updates);
      Assoc(st.updates, [u], updates[1..]);
      UpdateLinesParse(st', updates[1..]);
    }
  }

  /**
   * `parse_input` reads back exactly the rules and updates that were written
   * out as input lines.
   */
  lemma ParseInputLines(rules: seq<Rule>, updates: seq<seq<int>>)
    requires forall i :: 0 <= i < |updates| ==> updates[i] != []
    ensures ParseFrom(START, InputLines(rules, updates)) == Ok(Parsed(false, rules, updates))
  {
    var tail := [""] + UpdateLines(updates);
    var st := Parsed(true, rules, []);
    assert START.(instructions := START.instructions + rules) == st by {
      assert START.instructions + rules == rules;
    }
    calc {
      ParseFrom(START, InputLines(rules, updates));
      { assert InputLines(rules, updates) == RuleLines(rules) + tail; }
      ParseFrom(START, RuleLines(rules) + tail);
      { RuleLinesParse(START, rules, tail); }
      ParseFrom(st, tail);
      { BlankThenUpdates(st, updates); }
      Ok(Parsed(false, rules, updates));
    }
  }

  lemma BlankThenUpdates(st: Parsed, updates: seq<seq<int>>)
    requires st.updates == []
    requires forall i :: 0 <= i < |updates| ==> updates[i] != []
    ensures ParseFrom(st, [""] + UpdateLines(updates)) == Ok(Parsed(false, st.instructions, updates))
  {
    BlankLineParses(st);
    ParseFromLine(st, "", UpdateLines(updates), st.(inRules := false));
    UpdateLinesParse(st.(inRules := false), updates);
    EmptyAppend(st.updates, updates);
    
  }

  lemma BlankLineParses(st: Parsed)
    ensures ParseLine(st, "") == Ok(st.(inRules := false))
  {
    StripTrimmed("");
  }

  /** `main`: parse the lines, then sum the middle pages of the updates already in order. */
  method Solve(lines: seq<string>) returns (r: Result<int, Exc>)
    ensures ParseFrom(START, lines).Err? ==> r == Err(ParseFrom(START, lines).error)
    ensures ParseFrom(START, lines).Ok? ==>
      var p := ParseFrom(START, lines).value;
      if forall i :: 0 <= i < |p.updates| ==> p.updates[i] != []
      then r == Ok(MiddleSum(p.instructions, p.updates))
      else r == Err(IndexError)
  {
    var parsed := ParseInput(lines);
    if parsed.Err? {
      return Err(parsed.error);
    }
    var (instructions, updates) := parsed.value;
    if exists i :: 0 <= i < |updates| && updates[i] == [] {
      return Err(IndexError);
    }
    var sum := SumMiddles(instructions, updates);
    return Ok(sum);
  }
}
