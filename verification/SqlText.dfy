/** What the placeholder rewriting makes of the statement's text, ASCII or not. */
module SqlText {
  import opened Utf8
  import opened SqlPlaceholders
  import Text

  function DropDigits(s: string): (r: string)
    ensures |r| <= |s|
  {
    if s != "" && Text.IsDigit(s[0]) then DropDigits(s[1..]) else s
  }

  /** The text meant: every `?N` made a bare `?`, everything else as it is. */
  function Positional(s: string): string
    decreases |s|
  {
    if s == "" then ""
    else if s[0] == '?' then "?" + Positional(DropDigits(s[1..]))
    else [s[0]] + Positional(s[1..])
  }

  lemma FirstOctet(c: char)
    ensures EncodeChar(c) != [] && (IsDigit(EncodeChar(c)[0]) <==> Text.IsDigit(c))
    ensures Text.IsDigit(c) ==> EncodeChar(c) == [c as int]
  {}

  lemma {:induction false} DigitsEncode(s: string)
    ensures DigitRun(Encode(s)) <= |Encode(s)|
    ensures Encode(s)[DigitRun(Encode(s))..] == Encode(DropDigits(s))
  {
    hide EncodeChar;
    if s != "" {
      var rest := Encode(s[1..]);
      FirstOctet(s[0]);
      if Text.IsDigit(s[0]) {
        DigitsEncode(s[1..]);
        assert Encode(s) == [s[0] as int] + rest && Encode(s)[1..] == rest;
      } else {
        assert Encode(s)[0] == EncodeChar(s[0])[0];
        assert Encode(s)[0..] == Encode(s);
      }
    }
  }

  lemma CharWithoutMark(c: char)
    requires c != '?'
    ensures forall i | 0 <= i < |EncodeChar(c)| :: EncodeChar(c)[i] != QUESTION_MARK
  {}

  lemma {:induction false} LiteralRun(front: seq<Byte>, rest: seq<Byte>, params: seq<Value>, max: nat)
    requires forall i | 0 <= i < |front| :: front[i] != QUESTION_MARK
    ensures Rewritten(front + rest, params, max) == Continue(front, [], Rewritten(rest, params, max))
  {
    if front == [] {
      assert front + rest == rest;
      ContinueNothing(Rewritten(rest, params, max));
    } else {
      LiteralRun(front[1..], rest, params, max);
      assert (front + rest)[1..] == front[1..] + rest;
      ContinueJoins(front, Rewritten(rest, params, max));
    }
  }

  lemma ContinueJoins(front: seq<Byte>, rest: Rewrite)
    requires front != []
    ensures Prepend(front[0], [], Continue(front[1..], [], rest)) == Continue(front, [], rest)
  {
    if rest.Ok? {
      var none: seq<Value> := [];
      assert [front[0]] + (front[1..] + rest.value.0) == front + rest.value.0;
      assert none + (none + rest.value.1) == none + rest.value.1;
    }
  }

  /** What the loop emits are the octets of the text meant. */
  lemma {:induction false} OutputEncodesPositional(sql: string, params: seq<Value>, max: nat)
    requires Rewritten(Encode(sql), params, max).Ok?
    ensures Rewritten(Encode(sql), params, max).value.0 == Encode(Positional(sql))
    decreases |sql|
  {
    hide DigitRun, Explicit;
    if sql != "" {
      var b, rest := Encode(sql), Encode(sql[1..]);
      if sql[0] == '?' {
        assert b == [QUESTION_MARK] + rest && b[1..] == rest;
        DigitsEncode(sql[1..]);
        var (token, next) := FirstPlaceholder(b);
        assert next == Encode(DropDigits(sql[1..]));
        OutputEncodesPositional(DropDigits(sql[1..]), params, Bump(max, token));
        EncodeFront('?', Positional(DropDigits(sql[1..])));
      } else {
        CharWithoutMark(sql[0]);
        LiteralRun(EncodeChar(sql[0]), rest, params, max);
        OutputEncodesPositional(sql[1..], params, max);
        EncodeFront(sql[0], Positional(sql[1..]));
      }
    }
  }

  lemma EncodeFront(c: char, rest: string)
    ensures Encode([c] + rest) == EncodeChar(c) + Encode(rest)
  {
    assert ([c] + rest)[1..] == rest;
  }

  lemma {:induction false} PositionalKeepsAscii(s: string)
    ensures IsAscii(Positional(s)) <==> IsAscii(s)
    decreases |s|
  {
    if s != "" {
      if s[0] == '?' {
        PositionalKeepsAscii(DropDigits(s[1..]));
        DropKeepsAscii(s[1..]);
        AsciiCons('?', Positional(DropDigits(s[1..])));
      } else {
        PositionalKeepsAscii(s[1..]);
        AsciiCons(s[0], Positional(s[1..]));
      }
      AsciiCons(s[0], s[1..]);
      assert s == [s[0]] + s[1..];
    }
  }

  lemma {:induction false} DropKeepsAscii(s: string)
    ensures IsAscii(DropDigits(s)) <==> IsAscii(s)
  {
    if s != "" && Text.IsDigit(s[0]) {
      DropKeepsAscii(s[1..]);
      AsciiCons(s[0], s[1..]);
      assert s == [s[0]] + s[1..];
    }
  }

  lemma AsciiCons(c: char, s: string)
    ensures IsAscii([c] + s) <==> (c as int) < 0x80 && IsAscii(s)
  {
    var all := [c] + s;
    assert all[0] == c && forall i | 0 <= i < |s| :: s[i] == all[i + 1];
  }

  /** Octets are pushed one character each: the returned text is the text meant exactly when the statement is ASCII. */
  lemma TextSurvivesExactlyWhenAscii(sql: string, params: seq<Value>)
    requires Rewritten(Encode(sql), params, 0).Ok?
    ensures Latin1(Rewritten(Encode(sql), params, 0).value.0) == Positional(sql) <==> IsAscii(sql)
  {
    OutputEncodesPositional(sql, params, 0);
    MisreadingKeepsExactlyAscii(Positional(sql));
    PositionalKeepsAscii(sql);
  }

  /** For an ASCII statement the octets the engine reads back are the rewritten octets themselves. */
  lemma {:induction false} AsciiOutputReadsBack(b: seq<Byte>, params: seq<Value>, max: nat)
    requires Rewritten(b, params, max).Ok?
    requires forall i | 0 <= i < |b| :: b[i] < 0x80
    ensures Encode(Latin1(Rewritten(b, params, max).value.0)) == Rewritten(b, params, max).value.0
    decreases |b|
  {
    var out := Rewritten(b, params, max).value.0;
    if b != [] {
      var next := if b[0] == QUESTION_MARK then b[1..][DigitRun(b[1..])..] else b[1..];
      var after := if b[0] == QUESTION_MARK
        then Bump(max, if DigitRun(b[1..]) == 0 then Bare else Numbered(b[1..][..DigitRun(b[1..])]))
        else max;
      assert out == [b[0]] + Rewritten(next, params, after).value.0;
      AsciiOutputReadsBack(next, params, after);
      assert Latin1(out)[1..] == Latin1(out[1..]);
    }
  }

  // ---- The meaning of what the engine reads

  /** No placeholder is followed by a digit, so that every octet is a token of its own. */
  predicate OneTokenPerOctet(b: seq<Byte>) {
    forall i | 0 <= i < |b| - 1 && b[i] == QUESTION_MARK :: !IsDigit(b[i + 1])
  }

  lemma {:induction false} TokensAreOctets(b: seq<Byte>)
    requires OneTokenPerOctet(b)
    ensures |Lex(b)| == |b|
  {
    if b != [] {
      TailStaysApart(b);
      TokensAreOctets(b[1..]);
      assert b[1..][0..] == b[1..];
      assert b == [b[0]] + b[1..];
      if b[0] == QUESTION_MARK { LexBare(b[1..]); } else { LexLiteral(b[0], b[1..]); }
    }
  }

  lemma TailStaysApart(b: seq<Byte>)
    requires b != [] && OneTokenPerOctet(b)
    ensures OneTokenPerOctet(b[1..])
    ensures b[0] == QUESTION_MARK && b[1..] != [] ==> !IsDigit(b[1..][0])
  {
    forall i | 0 <= i < |b[1..]| - 1 && b[1..][i] == QUESTION_MARK ensures !IsDigit(b[1..][i + 1]) {
      assert b[i + 1] == QUESTION_MARK;
    }
  }

  lemma OneMoreOctet(octet: Byte, rest: seq<Byte>)
    requires OneTokenPerOctet(rest)
    requires octet == QUESTION_MARK && rest != [] ==> !IsDigit(rest[0])
    ensures OneTokenPerOctet([octet] + rest)
  {
    var b := [octet] + rest;
    forall i | 0 <= i < |b| - 1 && b[i] == QUESTION_MARK ensures !IsDigit(b[i + 1]) {
      if i > 0 { assert rest[i - 1] == b[i] && rest[i] == b[i + 1]; }
    }
  }

  lemma {:induction false} OutputStaysApart(b: seq<Byte>, params: seq<Value>, max: nat)
    requires Rewritten(b, params, max).Ok?
    ensures OneTokenPerOctet(Rewritten(b, params, max).value.0)
    decreases |b|
  {
    if b != [] && b[0] != QUESTION_MARK {
      OutputStaysApart(b[1..], params, max);
      OneMoreOctet(b[0], Rewritten(b[1..], params, max).value.0);
    } else if b != [] {
      var (token, next) := FirstPlaceholder(b);
      OutputStaysApart(next, params, Bump(max, token));
      RewriteKeepsFront(next, params, Bump(max, token));
      OneMoreOctet(QUESTION_MARK, Rewritten(next, params, Bump(max, token)).value.0);
    }
  }

  /** Reading the octets as characters and encoding those again brings in no new placeholder and no new digit. */
  lemma {:induction false} ReencodingStaysApart(b: seq<Byte>)
    requires OneTokenPerOctet(b)
    ensures OneTokenPerOctet(Encode(Latin1(b)))
    ensures b != [] ==> Encode(Latin1(b)) != [] && (IsDigit(Encode(Latin1(b))[0]) <==> IsDigit(b[0]))
  {
    if b != [] {
      var rest := Encode(Latin1(b[1..]));
      TailStaysApart(b);
      ReencodingStaysApart(b[1..]);
      assert Latin1(b)[1..] == Latin1(b[1..]);
      var front := EncodeChar(b[0] as char);
      assert Encode(Latin1(b)) == front + rest;
      if |front| == 1 {
        assert front == [b[0]];
        OneMoreOctet(b[0], rest);
      } else {
        assert front == [front[0], front[1]] && front[0] != QUESTION_MARK && front[1] != QUESTION_MARK;
        OneMoreOctet(front[1], rest);
        OneMoreOctet(front[0], [front[1]] + rest);
        assert front + rest == [front[0]] + ([front[1]] + rest);
      }
    }
  }

  lemma {:induction false} LowOctetsAreAscii(s: string)
    requires forall i | 0 <= i < |Encode(s)| :: Encode(s)[i] < 0x80
    ensures IsAscii(s)
  {
    if s != "" {
      assert forall i | 0 <= i < |Encode(s[1..])| :: Encode(s[1..])[i] == Encode(s)[|EncodeChar(s[0])| + i];
      LowOctetsAreAscii(s[1..]);
      assert EncodeChar(s[0])[0] == Encode(s)[0] < 0x80;
      AsciiCons(s[0], s[1..]);
      assert s == [s[0]] + s[1..];
    }
  }

  /** The text the engine is sent, read positionally over the reordered values, means what the caller's text means over
      the caller's parameters. */
  ghost predicate KeepsItsMeaning(sql: string, params: seq<Value>)
    requires Rewritten(Encode(sql), params, 0).Ok?
  {
    var (octets, ordered) := Rewritten(Encode(sql), params, 0).value;
    exists atoms :: Denotes(0, Lex(Encode(sql)), params, atoms) && Denotes(0, Lex(Encode(Latin1(octets))), ordered, atoms)
  }

  /** The promise holds for an accepted statement exactly when the statement is ASCII. */
  lemma MeaningSurvivesExactlyWhenAscii(sql: string, params: seq<Value>)
    requires Rewritten(Encode(sql), params, 0).Ok?
    ensures KeepsItsMeaning(sql, params) <==> IsAscii(sql)
  {
    hide Rewritten, Encode, Denotes, Lex, OneTokenPerOctet;
    var (octets, ordered) := Rewritten(Encode(sql), params, 0).value;
    RewritePreservesMeaning(Encode(sql), params);
    if IsAscii(sql) {
      AsciiBytes(sql);
      AsciiOutputReadsBack(Encode(sql), params, 0);
    }
    if KeepsItsMeaning(sql, params) {
      SameTokenCount(sql, params);
      OutputStaysApart(Encode(sql), params, 0);
      ReencodingStaysApart(octets);
      TokensAreOctets(octets);
      TokensAreOctets(Encode(Latin1(octets)));
      EncodeLength(Latin1(octets));
      OutputEncodesPositional(sql, params, 0);
      forall i | 0 <= i < |octets| ensures octets[i] < 0x80 {
        assert Latin1(octets)[i] as int == octets[i];
      }
      LowOctetsAreAscii(Positional(sql));
      PositionalKeepsAscii(sql);
    }
  }

  lemma SameTokenCount(sql: string, params: seq<Value>)
    requires Rewritten(Encode(sql), params, 0).Ok? && KeepsItsMeaning(sql, params)
    ensures var octets := Rewritten(Encode(sql), params, 0).value.0;
            |Lex(octets)| == |Lex(Encode(Latin1(octets)))|
  {
    hide Rewritten, Encode, Lex, Faulty;
    RewritePreservesMeaning(Encode(sql), params);
  }
}
