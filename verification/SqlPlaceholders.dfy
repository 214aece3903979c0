/** Rewriting of mixed `?` and `?N` placeholders into purely positional ones. */
module SqlPlaceholders {
  import opened Wrappers
  import opened Numbers
  import opened Utf8

  const USIZE_MAX: nat := 0xFFFF_FFFF_FFFF_FFFF
  const QUESTION_MARK: Byte := 0x3F

  type Digit = b: int | 0x30 <= b <= 0x39 witness 0x30

  datatype Value = Null | Integer(i: int) | Real(r: real) | Text(s: string) | Blob(b: seq<Byte>)

  datatype Error =
    | InvalidIndex(digits: seq<Digit>)
    | InvalidParameterName(index: nat)

  datatype Token = Literal(octet: Byte) | Bare | Numbered(digits: seq<Digit>)

  /** What a statement means once its values are bound: literal octets and bound values in order. */
  datatype Atom = Octet(octet: Byte) | Bound(value: Value)

  predicate IsDigit(b: Byte) {
    0x30 <= b <= 0x39
  }

  function DigitRun(b: seq<Byte>): (n: nat)
    ensures n <= |b|
    ensures forall i | 0 <= i < n :: IsDigit(b[i])
    ensures n < |b| ==> !IsDigit(b[n])
  {
    if b != [] && IsDigit(b[0]) then 1 + DigitRun(b[1..]) else 0
  }

  /** SQL text as literal octets and placeholders; a `?` takes every digit that follows it. */
  function Lex(b: seq<Byte>): seq<Token> {
    if b == [] then []
    else if b[0] == QUESTION_MARK then
      var n := DigitRun(b[1..]);
      [if n == 0 then Bare else Numbered(b[1..][..n])] + Lex(b[1..][n..])
    else [Literal(b[0])] + Lex(b[1..])
  }

  /** The decimal value of a digit run; `parse::<usize>` accepts it up to `USIZE_MAX`. */
  function Explicit(digits: seq<Digit>): nat {
    if digits == [] then 0
    else Explicit(digits[..|digits| - 1]) * 10 + (digits[|digits| - 1] as int - 0x30)
  }

  /** The largest index in use once `token` has been read. */
  function Bump(max: nat, token: Token): nat {
    match token
    case Literal(_) => max
    case Bare => max + 1
    case Numbered(digits) => Max(max, Explicit(digits))
  }

  function MaxAfter(max: nat, tokens: seq<Token>): nat
    decreases |tokens|
  {
    if tokens == [] then max else MaxAfter(Bump(max, tokens[0]), tokens[1..])
  }

  /** SQLite's numbering: a bare placeholder takes one more than the largest index before it. */
  function IndexAt(max: nat, tokens: seq<Token>, k: nat): nat
    requires k < |tokens|
  {
    match tokens[k]
    case Numbered(digits) => Explicit(digits)
    case _ => MaxAfter(max, tokens[..k]) + 1
  }

  /** Index 0 reads the same value as index 1. */
  function Slot(index: nat): nat {
    if index == 0 then 0 else index - 1
  }

  predicate Faulty(max: nat, tokens: seq<Token>, params: seq<Value>, k: nat)
    requires k < |tokens|
  {
    && !tokens[k].Literal?
    && (|| (tokens[k].Numbered? && Explicit(tokens[k].digits) > USIZE_MAX)
        || Slot(IndexAt(max, tokens, k)) >= |params|)
  }

  function FaultOf(max: nat, tokens: seq<Token>, k: nat): Error
    requires k < |tokens|
  {
    if tokens[k].Numbered? && Explicit(tokens[k].digits) > USIZE_MAX
    then InvalidIndex(tokens[k].digits)
    else InvalidParameterName(IndexAt(max, tokens, k))
  }

  /** `atoms` is the meaning of `tokens` over `params`, numbering on from `max`. */
  ghost predicate Denotes(max: nat, tokens: seq<Token>, params: seq<Value>, atoms: seq<Atom>) {
    && |atoms| == |tokens|
    && forall k | 0 <= k < |tokens| ::
      && !Faulty(max, tokens, params, k)
      && atoms[k] == match tokens[k]
                     case Literal(b) => Octet(b)
                     case _ => Bound(params[Slot(IndexAt(max, tokens, k))])
  }

  type Rewrite = Result<(seq<Byte>, seq<Value>), Error>

  function Prepend(octet: Byte, values: seq<Value>, rest: Rewrite): Rewrite {
    match rest
    case Ok((octets, ordered)) => Ok(([octet] + octets, values + ordered))
    case Err(e) => Err(e)
  }

  /** The rewriter as a function of the octets still to be read. */
  function Rewritten(b: seq<Byte>, params: seq<Value>, max: nat): Rewrite {
    if b == [] then Ok(([], []))
    else if b[0] != QUESTION_MARK then Prepend(b[0], [], Rewritten(b[1..], params, max))
    else
      var n := DigitRun(b[1..]);
      var digits := b[1..][..n];
      var index := if n == 0 then max + 1 else Explicit(digits);
      if index > USIZE_MAX && n != 0 then Err(InvalidIndex(digits))
      else if Slot(index) >= |params| then Err(InvalidParameterName(index))
      else Prepend(QUESTION_MARK, [params[Slot(index)]], Rewritten(b[1..][n..], params, Max(max, index)))
  }

  function Continue(octets: seq<Byte>, values: seq<Value>, rest: Rewrite): Rewrite {
    match rest
    case Ok((tail, ordered)) => Ok((octets + tail, values + ordered))
    case Err(e) => Err(e)
  }

  method NormalizeSqlAndParams(sql: string, params: seq<Value>) returns (r: Result<(string, seq<Value>), Error>)
    ensures match Rewritten(Encode(sql), params, 0)
            case Ok((octets, ordered)) => r == Ok((Latin1(octets), ordered))
            case Err(e) => r == Err(e)
  {
    hide Rewritten, Continue, Prepend, Explicit, Encode, Latin1;
    var bytes := Encode(sql);
    var out := "";
    ghost var outOctets: seq<Byte> := [];
    Latin1Append([], QUESTION_MARK);
    var ordered: seq<Value> := [];
    var maxIndex: nat := 0;
    var index := 0;
    ghost var whole := Rewritten(bytes, params, 0);
    ContinueNothing(whole);
    assert bytes[0..] == bytes;
    while index < |bytes|
      invariant 0 <= index <= |bytes|
      invariant out == Latin1(outOctets)
      invariant maxIndex <= |params|
      invariant whole == Continue(outOctets, ordered, Rewritten(bytes[index..], params, maxIndex))
    {
      if bytes[index] == QUESTION_MARK {
        var start := index + 1;
        var end := start;
        while end < |bytes| && IsDigit(bytes[end])
          invariant start <= end <= |bytes|
          invariant DigitRun(bytes[start..]) == end - start + DigitRun(bytes[end..])
        {
          DigitRunStep(bytes, end);
          end := end + 1;
        }
        PlaceholderStep(bytes, params, maxIndex, index, end);
        var paramIndex;
        if end > start {
          var explicit := Explicit(bytes[start..end]);
          if explicit > USIZE_MAX {
            ContinueFails(outOctets, ordered, InvalidIndex(bytes[start..end]));
            return Err(InvalidIndex(bytes[start..end]));
          }
          maxIndex := Max(maxIndex, explicit);
          paramIndex := explicit;
        } else {
          maxIndex := maxIndex + 1;
          paramIndex := maxIndex;
        }
        if Slot(paramIndex) >= |params| {
          ContinueFails(outOctets, ordered, InvalidParameterName(paramIndex));
          return Err(InvalidParameterName(paramIndex));
        }
        var value := params[Slot(paramIndex)];
        ContinuePrepend(outOctets, ordered, QUESTION_MARK, [value], Rewritten(bytes[end..], params, maxIndex));
        ordered := ordered + [value];
        out := out + "?";
        Latin1Append(outOctets, QUESTION_MARK);
        outOctets := outOctets + [QUESTION_MARK];
        index := end;
        continue;
      }
      LiteralStep(bytes, params, maxIndex, index);
      ContinuePrepend(outOctets, ordered, bytes[index], [], Rewritten(bytes[index + 1..], params, maxIndex));
      assert ordered + [] == ordered;
      out := out + [bytes[index] as char];
      Latin1Append(outOctets, bytes[index]);
      outOctets := outOctets + [bytes[index]];
      index := index + 1;
    }
    RewrittenEnd(bytes, params, maxIndex, index, outOctets, ordered);
    r := Ok((out, ordered));
  }

  lemma DigitRunStep(bytes: seq<Byte>, end: nat)
    requires end < |bytes| && IsDigit(bytes[end])
    ensures DigitRun(bytes[end..]) == 1 + DigitRun(bytes[end + 1..])
  {
    assert bytes[end..][1..] == bytes[end + 1..];
  }

  lemma RewrittenEnd(bytes: seq<Byte>, params: seq<Value>, max: nat, index: nat, octets: seq<Byte>, ordered: seq<Value>)
    requires index == |bytes|
    ensures Continue(octets, ordered, Rewritten(bytes[index..], params, max)) == Ok((octets, ordered))
  {
    assert bytes[index..] == [];
    assert octets + [] == octets && ordered + [] == ordered;
  }

  lemma Latin1Append(octets: seq<Byte>, octet: Byte)
    ensures Latin1(octets + [octet]) == Latin1(octets) + [octet as char]
    ensures Latin1([]) == ""
  {}

  lemma LiteralStep(bytes: seq<Byte>, params: seq<Value>, max: nat, index: nat)
    requires index < |bytes| && bytes[index] != QUESTION_MARK
    ensures Rewritten(bytes[index..], params, max) == Prepend(bytes[index], [], Rewritten(bytes[index + 1..], params, max))
  {
    assert bytes[index..][1..] == bytes[index + 1..];
  }

  /** One placeholder of the text, in terms of positions in the whole text. */
  lemma PlaceholderStep(bytes: seq<Byte>, params: seq<Value>, max: nat, index: nat, end: nat)
    requires index < end <= |bytes| && bytes[index] == QUESTION_MARK
    requires DigitRun(bytes[index + 1..]) == end - index - 1
    ensures forall i | index < i < end :: IsDigit(bytes[i])
    ensures var paramIndex := if end == index + 1 then max + 1 else Explicit(bytes[index + 1..end]);
            Rewritten(bytes[index..], params, max) ==
            if end > index + 1 && paramIndex > USIZE_MAX then Err(InvalidIndex(bytes[index + 1..end]))
            else if Slot(paramIndex) >= |params| then Err(InvalidParameterName(paramIndex))
            else Prepend(QUESTION_MARK, [params[Slot(paramIndex)]], Rewritten(bytes[end..], params, Max(max, paramIndex)))
  {
    var rest := bytes[index..];
    var n := end - index - 1;
    assert rest[1..] == bytes[index + 1..];
    assert bytes[index + 1..][..n] == bytes[index + 1..end] && bytes[index + 1..][n..] == bytes[end..];
    forall i | index < i < end ensures IsDigit(bytes[i]) {
      assert bytes[i] == bytes[index + 1..][i - index - 1];
    }
  }

  lemma ContinueNothing(rest: Rewrite)
    ensures Continue([], [], rest) == rest
  {
    if rest.Ok? {
      assert [] + rest.value.0 == rest.value.0 && [] + rest.value.1 == rest.value.1;
    }
  }

  lemma ContinueFails(octets: seq<Byte>, values: seq<Value>, error: Error)
    ensures Continue(octets, values, Err(error)) == Err(error)
  {}

  lemma ContinuePrepend(octets: seq<Byte>, values: seq<Value>, octet: Byte, more: seq<Value>, rest: Rewrite)
    ensures Continue(octets, values, Prepend(octet, more, rest)) == Continue(octets + [octet], values + more, rest)
  {
    if rest.Ok? {
      assert octets + ([octet] + rest.value.0) == octets + [octet] + rest.value.0;
      assert values + (more + rest.value.1) == values + more + rest.value.1;
    }
  }

  // ---- What the rewriting means

  lemma IndexShift(max: nat, tokens: seq<Token>, k: nat)
    requires 0 < k < |tokens|
    ensures IndexAt(max, tokens, k) == IndexAt(Bump(max, tokens[0]), tokens[1..], k - 1)
  {
    assert tokens[..k][1..] == tokens[1..][..k - 1];
  }

  lemma DenotesCons(max: nat, token: Token, tokens: seq<Token>, params: seq<Value>, atom: Atom, atoms: seq<Atom>)
    requires Denotes(Bump(max, token), tokens, params, atoms)
    requires !Faulty(max, [token], params, 0)
    requires atom == match token
                     case Literal(b) => Octet(b)
                     case _ => Bound(params[Slot(IndexAt(max, [token], 0))])
    ensures Denotes(max, [token] + tokens, params, [atom] + atoms)
  {
    var all := [token] + tokens;
    assert all[1..] == tokens && all[..0] == [token][..0];
    forall k | 0 <= k < |all|
      ensures !Faulty(max, all, params, k)
      ensures ([atom] + atoms)[k] == match all[k]
                                     case Literal(b) => Octet(b)
                                     case _ => Bound(params[Slot(IndexAt(max, all, k))])
    {
      if k > 0 { IndexShift(max, all, k); }
    }
  }

  /** The output begins as the input does, so no digit can come to follow a rewritten `?`. */
  lemma RewriteKeepsFront(b: seq<Byte>, params: seq<Value>, max: nat)
    requires Rewritten(b, params, max).Ok?
    ensures var out := Rewritten(b, params, max).value.0;
            |out| == 0 <==> |b| == 0
    ensures var out := Rewritten(b, params, max).value.0;
            |b| > 0 ==> out[0] == b[0]
  {}

  lemma LexBare(rest: seq<Byte>)
    requires rest != [] ==> !IsDigit(rest[0])
    ensures Lex([QUESTION_MARK] + rest) == [Bare] + Lex(rest)
  {
    var b := [QUESTION_MARK] + rest;
    assert b[1..] == rest && rest[0..] == rest;
  }

  lemma LexLiteral(octet: Byte, rest: seq<Byte>)
    requires octet != QUESTION_MARK
    ensures Lex([octet] + rest) == [Literal(octet)] + Lex(rest)
  {
    assert ([octet] + rest)[1..] == rest;
  }

  /** `atoms` is the meaning both of the text still to be read and of what it is rewritten to. */
  ghost predicate SharedMeaning(b: seq<Byte>, params: seq<Value>, max: nat, before: seq<Value>, atoms: seq<Atom>)
    requires Rewritten(b, params, max).Ok?
  {
    var (out, ordered) := Rewritten(b, params, max).value;
    && Denotes(max, Lex(b), params, atoms)
    && Denotes(|before|, Lex(out), before + ordered, atoms)
  }

  lemma LiteralMeaning(b: seq<Byte>, params: seq<Value>, max: nat, before: seq<Value>, rest: seq<Atom>)
    requires b != [] && b[0] != QUESTION_MARK && Rewritten(b, params, max).Ok?
    requires SharedMeaning(b[1..], params, max, before, rest)
    ensures SharedMeaning(b, params, max, before, [Octet(b[0])] + rest)
  {
    hide Denotes, Explicit;
    var (out, ordered) := Rewritten(b, params, max).value;
    var tail := Rewritten(b[1..], params, max).value;
    LexLiteral(b[0], tail.0);
    DenotesCons(max, Literal(b[0]), Lex(b[1..]), params, Octet(b[0]), rest);
    assert before + ordered == before + tail.1;
    DenotesCons(|before|, Literal(b[0]), Lex(tail.0), before + ordered, Octet(b[0]), rest);
  }

  lemma PlaceholderRewrites(b: seq<Byte>, params: seq<Value>, max: nat)
    requires b != [] && b[0] == QUESTION_MARK && Rewritten(b, params, max).Ok?
    ensures var (token, next) := FirstPlaceholder(b);
            && !Faulty(max, [token], params, 0)
            && Rewritten(next, params, Bump(max, token)).Ok?
            && var tail := Rewritten(next, params, Bump(max, token)).value;
            Rewritten(b, params, max).value ==
            ([QUESTION_MARK] + tail.0, [params[Slot(IndexAt(max, [token], 0))]] + tail.1)
    ensures Lex(b) == [FirstPlaceholder(b).0] + Lex(FirstPlaceholder(b).1)
  {
    hide Explicit;
    var (token, next) := FirstPlaceholder(b);
    assert [token][..0] == [];
  }

  lemma EmptyMeaning(params: seq<Value>, max: nat, before: seq<Value>)
    ensures SharedMeaning([], params, max, before, [])
  {}

  lemma PlaceholderMeaning(b: seq<Byte>, params: seq<Value>, max: nat, before: seq<Value>, value: Value, rest: seq<Atom>)
    requires b != [] && b[0] == QUESTION_MARK && Rewritten(b, params, max).Ok?
    requires var (token, next) := FirstPlaceholder(b);
             && Slot(IndexAt(max, [token], 0)) < |params|
             && value == params[Slot(IndexAt(max, [token], 0))]
             && Rewritten(next, params, Bump(max, token)).Ok?
             && SharedMeaning(next, params, Bump(max, token), before + [value], rest)
    ensures SharedMeaning(b, params, max, before, [Bound(value)] + rest)
  {
    hide Denotes, Explicit, DigitRun, Rewritten, Lex, Faulty, IndexAt;
    var (token, next) := FirstPlaceholder(b);
    var tail := Rewritten(next, params, Bump(max, token)).value;
    PlaceholderRewrites(b, params, max);
    RewriteKeepsFront(next, params, Bump(max, token));
    DenotesCons(max, token, Lex(next), params, Bound(value), rest);
    BareMeaning(before, value, tail.0, tail.1, rest);
  }

  /** A bare placeholder in front reads the next of the reordered values. */
  lemma BareMeaning(before: seq<Value>, value: Value, out: seq<Byte>, ordered: seq<Value>, rest: seq<Atom>)
    requires out != [] ==> !IsDigit(out[0])
    requires Denotes(|before + [value]|, Lex(out), before + [value] + ordered, rest)
    ensures Denotes(|before|, Lex([QUESTION_MARK] + out), before + ([value] + ordered), [Bound(value)] + rest)
  {
    hide Denotes, Lex;
    LexBare(out);
    assert before + ([value] + ordered) == before + [value] + ordered;
    assert [Bare][..0] == [];
    DenotesCons(|before|, Bare, Lex(out), before + ([value] + ordered), Bound(value), rest);
  }

  /** The placeholder at the front of the text, and what follows it. */
  function FirstPlaceholder(b: seq<Byte>): (Token, seq<Byte>)
    requires b != []
  {
    var n := DigitRun(b[1..]);
    (if n == 0 then Bare else Numbered(b[1..][..n]), b[1..][n..])
  }

  /** On success, input and output have one meaning: the input read with its own numbering over `params`, the output
      read positionally over the reordered values that follow `before`. */
  lemma {:induction false} RewriteDenotes(b: seq<Byte>, params: seq<Value>, max: nat, before: seq<Value>)
    returns (atoms: seq<Atom>)
    requires Rewritten(b, params, max).Ok?
    ensures SharedMeaning(b, params, max, before, atoms)
    decreases |b|
  {
    hide SharedMeaning, Explicit;
    if b == [] {
      atoms := [];
      EmptyMeaning(params, max, before);
    } else if b[0] != QUESTION_MARK {
      var rest := RewriteDenotes(b[1..], params, max, before);
      atoms := [Octet(b[0])] + rest;
      LiteralMeaning(b, params, max, before, rest);
    } else {
      var (token, next) := FirstPlaceholder(b);
      var value := params[Slot(IndexAt(max, [token], 0))];
      var rest := RewriteDenotes(next, params, Bump(max, token), before + [value]);
      atoms := [Bound(value)] + rest;
      PlaceholderMeaning(b, params, max, before, value, rest);
    }
  }

  /** Rewriting preserves meaning, for every text and parameter list it accepts. */
  lemma RewritePreservesMeaning(b: seq<Byte>, params: seq<Value>)
    requires Rewritten(b, params, 0).Ok?
    ensures var (out, ordered) := Rewritten(b, params, 0).value;
            exists atoms :: Denotes(0, Lex(b), params, atoms) && Denotes(0, Lex(out), ordered, atoms)
  {
    var (out, ordered) := Rewritten(b, params, 0).value;
    var atoms := RewriteDenotes(b, params, 0, []);
    assert [] + ordered == ordered;
  }

  /** The meaning of a statement is unique, so the shared one above is the meaning. */
  lemma MeaningIsUnique(max: nat, tokens: seq<Token>, params: seq<Value>, one: seq<Atom>, other: seq<Atom>)
    requires Denotes(max, tokens, params, one) && Denotes(max, tokens, params, other)
    ensures one == other
  {
    forall k | 0 <= k < |one| ensures one[k] == other[k] {
      assert !Faulty(max, tokens, params, k);
    }
  }

  function Placeholders(tokens: seq<Token>): nat {
    if tokens == [] then 0 else (if tokens[0].Literal? then 0 else 1) + Placeholders(tokens[1..])
  }

  /** The output holds bare placeholders only, one for each reordered value. */
  lemma {:induction false} OutputIsPositional(b: seq<Byte>, params: seq<Value>, max: nat)
    requires Rewritten(b, params, max).Ok?
    ensures var (out, ordered) := Rewritten(b, params, max).value;
            Placeholders(Lex(out)) == |ordered| && forall token | token in Lex(out) :: !token.Numbered?
    decreases |b|
  {
    if b != [] && b[0] != QUESTION_MARK {
      OutputIsPositional(b[1..], params, max);
      LexLiteral(b[0], Rewritten(b[1..], params, max).value.0);
    } else if b != [] {
      var n := DigitRun(b[1..]);
      var next := b[1..][n..];
      var after := Bump(max, if n == 0 then Bare else Numbered(b[1..][..n]));
      OutputIsPositional(next, params, after);
      RewriteKeepsFront(next, params, after);
      LexBare(Rewritten(next, params, after).value.0);
    }
  }

  lemma BareRewrites(out: seq<Byte>, params: seq<Value>, max: nat)
    requires (out != [] ==> !IsDigit(out[0])) && max < |params|
    ensures Rewritten([QUESTION_MARK] + out, params, max) ==
            Prepend(QUESTION_MARK, [params[max]], Rewritten(out, params, max + 1))
  {
    var b := [QUESTION_MARK] + out;
    assert b[1..] == out && out[0..] == out;
  }

  lemma LiteralRewrites(octet: Byte, out: seq<Byte>, params: seq<Value>, max: nat)
    requires octet != QUESTION_MARK
    ensures Rewritten([octet] + out, params, max) == Prepend(octet, [], Rewritten(out, params, max))
  {
    assert ([octet] + out)[1..] == out;
  }

  /** A second rewrite of the output over the reordered values changes nothing. */
  lemma {:induction false} RewriteTwice(b: seq<Byte>, params: seq<Value>, max: nat, before: seq<Value>)
    requires Rewritten(b, params, max).Ok?
    ensures var (out, ordered) := Rewritten(b, params, max).value;
            Rewritten(out, before + ordered, |before|) == Ok((out, ordered))
    decreases |b|
  {
    hide DigitRun, Explicit, Faulty, IndexAt, Lex, Slot;
    if b != [] && b[0] != QUESTION_MARK {
      var tail := Rewritten(b[1..], params, max).value;
      RewriteTwice(b[1..], params, max, before);
      LiteralRewrites(b[0], b[1..], params, max);
      assert [b[0]] + b[1..] == b;
      var none: seq<Value> := [];
      assert none + tail.1 == tail.1;
      LiteralRewrites(b[0], tail.0, before + tail.1, |before|);
    } else if b != [] {
      var (token, next) := FirstPlaceholder(b);
      PlaceholderRewrites(b, params, max);
      var tail := Rewritten(next, params, Bump(max, token)).value;
      var value := Rewritten(b, params, max).value.1[0];
      RewriteTwice(next, params, Bump(max, token), before + [value]);
      RewriteKeepsFront(next, params, Bump(max, token));
      assert before + ([value] + tail.1) == before + [value] + tail.1;
      BareRewrites(tail.0, before + [value] + tail.1, |before|);
    }
  }

  /** `k` is the first placeholder without a value, and `error` reports it. */
  ghost predicate FirstFault(max: nat, tokens: seq<Token>, params: seq<Value>, k: nat, error: Error) {
    && k < |tokens|
    && Faulty(max, tokens, params, k)
    && FaultOf(max, tokens, k) == error
    && forall j | 0 <= j < k :: !Faulty(max, tokens, params, j)
  }

  lemma FaultCons(max: nat, tokens: seq<Token>, params: seq<Value>, k: nat, error: Error)
    requires |tokens| > 0 && !Faulty(max, tokens, params, 0)
    requires FirstFault(Bump(max, tokens[0]), tokens[1..], params, k, error)
    ensures FirstFault(max, tokens, params, k + 1, error)
  {
    forall j | 0 < j < |tokens| ensures IndexAt(max, tokens, j) == IndexAt(Bump(max, tokens[0]), tokens[1..], j - 1) {
      IndexShift(max, tokens, j);
    }
    forall j | 0 <= j < k + 1 ensures !Faulty(max, tokens, params, j) {
      assert j > 0 ==> !Faulty(Bump(max, tokens[0]), tokens[1..], params, j - 1);
    }
  }

  lemma {:induction false} RewriteFaults(b: seq<Byte>, params: seq<Value>, max: nat) returns (k: nat)
    requires Rewritten(b, params, max).Err?
    ensures FirstFault(max, Lex(b), params, k, Rewritten(b, params, max).error)
    decreases |b|
  {
    if b[0] != QUESTION_MARK {
      var j := RewriteFaults(b[1..], params, max);
      assert Lex(b)[1..] == Lex(b[1..]);
      FaultCons(max, Lex(b), params, j, Rewritten(b, params, max).error);
      k := j + 1;
    } else {
      var n := DigitRun(b[1..]);
      var next := b[1..][n..];
      assert Lex(b)[1..] == Lex(next);
      assert Lex(b)[..0] == [];
      if Faulty(max, Lex(b), params, 0) {
        k := 0;
      } else {
        var after := Bump(max, Lex(b)[0]);
        var j := RewriteFaults(next, params, after);
        FaultCons(max, Lex(b), params, j, Rewritten(b, params, max).error);
        k := j + 1;
      }
    }
  }

  /** Rewriting fails exactly when some placeholder's index does not parse or has no value, and the first such
      placeholder decides the error. */
  lemma FailsExactlyOnFault(b: seq<Byte>, params: seq<Value>)
    ensures Rewritten(b, params, 0).Err? <==> exists k :: 0 <= k < |Lex(b)| && Faulty(0, Lex(b), params, k)
    ensures Rewritten(b, params, 0).Err? ==>
              exists k :: FirstFault(0, Lex(b), params, k, Rewritten(b, params, 0).error)
  {
    if Rewritten(b, params, 0).Err? {
      var k := RewriteFaults(b, params, 0);
      assert k < |Lex(b)| && Faulty(0, Lex(b), params, k);
      assert FirstFault(0, Lex(b), params, k, Rewritten(b, params, 0).error);
    } else {
      var atoms := RewriteDenotes(b, params, 0, []);
    }
  }

  /** The index counter never outgrows the parameter list on a successful rewrite, so `usize` cannot wrap. */
  lemma {:induction false} CounterStaysInRange(b: seq<Byte>, params: seq<Value>, max: nat)
    requires Rewritten(b, params, max).Ok? && max <= |params|
    ensures MaxAfter(max, Lex(b)) <= |params|
    decreases |b|
  {
    if b != [] && b[0] != QUESTION_MARK {
      CounterStaysInRange(b[1..], params, max);
    } else if b != [] {
      var n := DigitRun(b[1..]);
      var token := if n == 0 then Bare else Numbered(b[1..][..n]);
      CounterStaysInRange(b[1..][n..], params, Bump(max, token));
    }
  }
}
