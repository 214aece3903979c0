/** An explicit index 0 beside an explicit index 1. */
module SqlIndexZero {
  import opened Wrappers
  import opened Numbers
  import opened Utf8
  import opened SqlPlaceholders

  /** `?0` and `?1` read the same value but number differently: a bare `?` after `?0` is the first parameter, after
      `?1` the second. */
  lemma IndexZeroReadsFirstButDoesNotCount(params: seq<Value>, digit: Byte)
    requires |params| >= 2 && 0x30 <= digit <= 0x31
    ensures var second := if digit == 0x30 then params[0] else params[1];
            Rewritten([QUESTION_MARK, digit, QUESTION_MARK], params, 0) ==
            Ok(([QUESTION_MARK, QUESTION_MARK], [params[0], second]))
  {
    var b := [QUESTION_MARK, digit, QUESTION_MARK];
    var max := digit as int - 0x30;
    var index := b[1..][..1];
    assert b[1..] == [digit, QUESTION_MARK] && b[1..][1..] == [QUESTION_MARK];
    assert index == [digit] && index[..0] == [];
    assert Explicit(index) == max;
    LoneBare(params, max);
    assert Rewritten(b, params, 0) == Prepend(QUESTION_MARK, [params[0]], Rewritten([QUESTION_MARK], params, max));
    assert [QUESTION_MARK] + [QUESTION_MARK] == [QUESTION_MARK, QUESTION_MARK];
    assert [params[0]] + [params[max]] == [params[0], params[max]];
  }

  lemma LoneBare(params: seq<Value>, max: nat)
    requires max < |params|
    ensures Rewritten([QUESTION_MARK], params, max) == Ok(([QUESTION_MARK], [params[max]]))
  {
    var b := [QUESTION_MARK];
    var none: seq<Value> := [];
    assert b[1..] == [] && b[1..][0..] == [];
    assert b + [] == b && [params[max]] + none == [params[max]];
  }

  lemma {:induction false} DigitRunAppend(b: seq<Byte>, rest: seq<Byte>)
    requires rest == [] || !IsDigit(rest[0])
    ensures DigitRun(b + rest) == DigitRun(b)
  {
    if b == [] {
      assert b + rest == rest;
    } else {
      DigitRunAppend(b[1..], rest);
      assert (b + rest)[1..] == b[1..] + rest && (b + rest)[0] == b[0];
    }
  }

  /** The rewriting of a text, then of what follows it with the counter where the text left it. */
  function Then(first: Rewrite, rest: Rewrite): Rewrite {
    match first
    case Ok((octets, ordered)) => Continue(octets, ordered, rest)
    case Err(e) => Err(e)
  }

  lemma ThenPrepend(octet: Byte, values: seq<Value>, first: Rewrite, rest: Rewrite)
    ensures Then(Prepend(octet, values, first), rest) == Prepend(octet, values, Then(first, rest))
  {
    if first.Ok? && rest.Ok? {
      assert [octet] + first.value.0 + rest.value.0 == [octet] + (first.value.0 + rest.value.0);
      assert values + first.value.1 + rest.value.1 == values + (first.value.1 + rest.value.1);
    }
  }

  /** What one placeholder contributes in front of what follows it. */
  function Placed(token: Token, max: nat, params: seq<Value>, rest: Rewrite): Rewrite
    requires !token.Literal?
  {
    if Faulty(max, [token], params, 0) then Err(FaultOf(max, [token], 0))
    else Prepend(QUESTION_MARK, [params[Slot(IndexAt(max, [token], 0))]], rest)
  }

  lemma PlacedThen(token: Token, max: nat, params: seq<Value>, first: Rewrite, rest: Rewrite)
    requires !token.Literal?
    ensures Then(Placed(token, max, params, first), rest) == Placed(token, max, params, Then(first, rest))
  {
    hide IndexAt;
    if !Faulty(max, [token], params, 0) {
      ThenPrepend(QUESTION_MARK, [params[Slot(IndexAt(max, [token], 0))]], first, rest);
    }
  }

  lemma RewrittenIsPlaced(b: seq<Byte>, params: seq<Value>, max: nat)
    requires b != [] && b[0] == QUESTION_MARK
    ensures var (token, next) := FirstPlaceholder(b);
            Rewritten(b, params, max) == Placed(token, max, params, Rewritten(next, params, Bump(max, token)))
  {
    hide Explicit;
    var (token, next) := FirstPlaceholder(b);
    assert [token][..0] == [];
  }

  lemma FirstPlaceholderAppend(b: seq<Byte>, rest: seq<Byte>)
    requires b != [] && (rest == [] || !IsDigit(rest[0]))
    ensures FirstPlaceholder(b + rest) == (FirstPlaceholder(b).0, FirstPlaceholder(b).1 + rest)
  {
    var n := DigitRun(b[1..]);
    DigitRunAppend(b[1..], rest);
    assert (b + rest)[1..] == b[1..] + rest;
    assert (b[1..] + rest)[..n] == b[1..][..n] && (b[1..] + rest)[n..] == b[1..][n..] + rest;
  }

  lemma {:induction false} RewriteInParts(b: seq<Byte>, rest: seq<Byte>, params: seq<Value>, max: nat)
    requires rest == [] || !IsDigit(rest[0])
    ensures Rewritten(b + rest, params, max) ==
            Then(Rewritten(b, params, max), Rewritten(rest, params, MaxAfter(max, Lex(b))))
    decreases |b|, 1
  {
    hide Explicit, Faulty, FaultOf, IndexAt, Bump;
    var tail := Rewritten(rest, params, MaxAfter(max, Lex(b)));
    if b == [] {
      assert b + rest == rest;
      ContinueNothing(tail);
    } else if b[0] != QUESTION_MARK {
      LiteralInParts(b, rest, params, max);
    } else {
      hide Rewritten, Placed, Then, DigitRun;
      var (token, next) := FirstPlaceholder(b);
      RewriteInParts(next, rest, params, Bump(max, token));
      RewrittenIsPlaced(b, params, max);
      RewrittenIsPlaced(b + rest, params, max);
      FirstPlaceholderAppend(b, rest);
      PlacedThen(token, max, params, Rewritten(next, params, Bump(max, token)), tail);
      assert Lex(b) == [token] + Lex(next) && Lex(b)[1..] == Lex(next);
    }
  }

  lemma {:induction false} LiteralInParts(b: seq<Byte>, rest: seq<Byte>, params: seq<Value>, max: nat)
    requires rest == [] || !IsDigit(rest[0])
    requires b != [] && b[0] != QUESTION_MARK
    ensures Rewritten(b + rest, params, max) ==
            Then(Rewritten(b, params, max), Rewritten(rest, params, MaxAfter(max, Lex(b))))
    decreases |b|, 0
  {
    hide Then, DigitRun;
    var tail := Rewritten(rest, params, MaxAfter(max, Lex(b)));
    RewriteInParts(b[1..], rest, params, max);
    assert (b + rest)[1..] == b[1..] + rest;
    assert Lex(b)[1..] == Lex(b[1..]);
    ThenPrepend(b[0], [], Rewritten(b[1..], params, max), tail);
  }

  /** An explicit placeholder in front of a text that does not start with a digit. */
  lemma ExplicitFront(digits: seq<Digit>, rest: seq<Byte>, params: seq<Value>, max: nat)
    requires digits != [] && (rest == [] || !IsDigit(rest[0]))
    requires Explicit(digits) <= 1 && |params| >= 1
    ensures Rewritten([QUESTION_MARK] + digits + rest, params, max) ==
            Prepend(QUESTION_MARK, [params[0]], Rewritten(rest, params, Max(max, Explicit(digits))))
  {
    var b := [QUESTION_MARK] + digits + rest;
    assert b[1..] == digits + rest;
    AllDigits(digits);
    DigitRunAppend(digits, rest);
    assert b[1..][..|digits|] == digits && b[1..][|digits|..] == rest;
  }

  lemma {:induction false} AllDigits(digits: seq<Digit>)
    ensures DigitRun(digits) == |digits|
  {
    if digits != [] { AllDigits(digits[1..]); }
  }

  /** A bare placeholder comes before any explicit index from 1 on. */
  predicate BareFirst(tokens: seq<Token>) {
    tokens != [] &&
    match tokens[0]
    case Literal(_) => BareFirst(tokens[1..])
    case Bare => true
    case Numbered(digits) => Explicit(digits) == 0 && BareFirst(tokens[1..])
  }

  lemma PrependInjective(octet: Byte, value: seq<Value>, one: Rewrite, other: Rewrite)
    ensures Prepend(octet, value, one) == Prepend(octet, value, other) ==> one == other
  {
    if one.Ok? && other.Ok? && Prepend(octet, value, one) == Prepend(octet, value, other) {
      assert ([octet] + one.value.0)[1..] == one.value.0 && ([octet] + other.value.0)[1..] == other.value.0;
      assert (value + one.value.1)[|value|..] == one.value.1 && (value + other.value.1)[|value|..] == other.value.1;
    }
  }

  lemma PrependDiffers(octet: Byte, one: Value, other: Value, first: Rewrite, second: Rewrite)
    requires one != other && (first.Ok? || second.Ok?)
    ensures Prepend(octet, [one], first) != Prepend(octet, [other], second)
  {
    if first.Ok? && second.Ok? {
      assert ([one] + first.value.1)[0] != ([other] + second.value.1)[0];
    }
  }

  predicate FirstTwoDiffer(params: seq<Value>) {
    |params| >= 2 ==> params[0] != params[1]
  }

  /** Starting the numbering at 0 or at 1 makes a difference exactly if a bare placeholder meets the difference. */
  lemma {:induction false} CounterMatters(b: seq<Byte>, params: seq<Value>)
    ensures !BareFirst(Lex(b)) ==> Rewritten(b, params, 0) == Rewritten(b, params, 1)
    ensures FirstTwoDiffer(params) && BareFirst(Lex(b)) && (Rewritten(b, params, 0).Ok? || Rewritten(b, params, 1).Ok?) ==>
              Rewritten(b, params, 0) != Rewritten(b, params, 1)
    decreases |b|
  {
    if b != [] && b[0] != QUESTION_MARK {
      CounterMatters(b[1..], params);
      assert Lex(b)[1..] == Lex(b[1..]);
      PrependInjective(b[0], [], Rewritten(b[1..], params, 0), Rewritten(b[1..], params, 1));
    } else if b != [] {
      var (token, next) := FirstPlaceholder(b);
      assert Lex(b)[1..] == Lex(next);
      if token.Bare? {
        if |params| >= 2 && params[0] != params[1] {
          var one, other := Rewritten(next, params, 1), Rewritten(next, params, 2);
          if one.Ok? || other.Ok? { PrependDiffers(QUESTION_MARK, params[0], params[1], one, other); }
        }
      } else if Explicit(token.digits) == 0 && |params| >= 1 {
        CounterMatters(next, params);
        PrependInjective(QUESTION_MARK, [params[0]], Rewritten(next, params, 0), Rewritten(next, params, 1));
      }
    }
  }

  /** Writing an index 1 for an index 0, after any text and before any text, changes nothing exactly if some index was
      counted before it, or an explicit index comes before the next bare placeholder. */
  lemma ZeroIsOneExactlyWhenCountedOrNotBareFirst(
      prefix: seq<Byte>, zero: seq<Digit>, one: seq<Digit>, rest: seq<Byte>, params: seq<Value>)
    requires zero != [] && Explicit(zero) == 0 && one != [] && Explicit(one) == 1
    requires rest == [] || !IsDigit(rest[0])
    ensures var (r0, r1) := (Rewritten(prefix + ([QUESTION_MARK] + zero + rest), params, 0),
                             Rewritten(prefix + ([QUESTION_MARK] + one + rest), params, 0));
            && (params != [] && (MaxAfter(0, Lex(prefix)) >= 1 || !BareFirst(Lex(rest))) ==> r0 == r1)
            && (FirstTwoDiffer(params) && (r0.Ok? || r1.Ok?) ==>
                  (r0 == r1 <==> MaxAfter(0, Lex(prefix)) >= 1 || !BareFirst(Lex(rest))))
  {
    hide Rewritten, Explicit, Lex, BareFirst;
    var atZero, atOne := [QUESTION_MARK] + zero + rest, [QUESTION_MARK] + one + rest;
    var max := MaxAfter(0, Lex(prefix));
    RewriteInParts(prefix, atZero, params, 0);
    RewriteInParts(prefix, atOne, params, 0);
    NoValueNoRewrite(zero, rest, params, max);
    NoValueNoRewrite(one, rest, params, max);
    if params != [] {
      ExplicitFront(zero, rest, params, max);
      ExplicitFront(one, rest, params, max);
      CounterMatters(rest, params);
      var atMax, atMaxOne := Rewritten(rest, params, max), Rewritten(rest, params, Max(max, 1));
      PrependInjective(QUESTION_MARK, [params[0]], atMax, atMaxOne);
      if Rewritten(prefix, params, 0).Ok? {
        var (octets, ordered) := Rewritten(prefix, params, 0).value;
        ContinueInjective(
          octets, ordered, Prepend(QUESTION_MARK, [params[0]], atMax), Prepend(QUESTION_MARK, [params[0]], atMaxOne));
      }
    }
  }

  lemma ContinueInjective(octets: seq<Byte>, values: seq<Value>, one: Rewrite, other: Rewrite)
    ensures Continue(octets, values, one) == Continue(octets, values, other) ==> one == other
  {
    if one.Ok? && other.Ok? && Continue(octets, values, one) == Continue(octets, values, other) {
      var n, m := |octets|, |values|;
      assert (octets + one.value.0)[n..] == one.value.0 && (octets + other.value.0)[n..] == other.value.0;
      assert (values + one.value.1)[m..] == one.value.1 && (values + other.value.1)[m..] == other.value.1;
    }
  }

  lemma NoValueNoRewrite(digits: seq<Digit>, rest: seq<Byte>, params: seq<Value>, max: nat)
    ensures params == [] ==> Rewritten([QUESTION_MARK] + digits + rest, params, max).Err?
  {}
}
