/** What the placeholder rewriting does to a statement written out piece by piece, its indices in decimal. */
module SqlNumerals {
  import opened Wrappers
  import opened Utf8
  import opened SqlPlaceholders
  import opened SqlIndexZero

  const MARK: Byte := 0x3F

  // ---- Decimal numerals

  function Numeral(n: nat): (r: seq<Digit>)
    ensures r != []
  {
    (if n < 10 then [] else Numeral(n / 10)) + [0x30 + n % 10]
  }

  function Zeros(z: nat): (r: seq<Digit>)
    ensures |r| == z && forall i | 0 <= i < z :: r[i] == 0x30
  {
    if z == 0 then [] else Zeros(z - 1) + [0x30]
  }

  lemma OneMoreDigit(front: seq<Digit>, d: Digit)
    ensures Explicit(front + [d]) == Explicit(front) * 10 + (d - 0x30)
  {
    assert (front + [d])[..|front|] == front;
  }

  lemma {:induction false} ZerosCountNothing(z: nat)
    ensures Explicit(Zeros(z)) == 0
  {
    if z > 0 {
      ZerosCountNothing(z - 1);
      OneMoreDigit(Zeros(z - 1), 0x30);
    }
  }

  /** An index is read in decimal, whatever zeros are written in front of it. */
  lemma {:induction false} NumeralReads(z: nat, n: nat)
    ensures Explicit(Zeros(z) + Numeral(n)) == n
  {
    var front := Zeros(z) + (if n < 10 then [] else Numeral(n / 10));
    if n < 10 {
      ZerosCountNothing(z);
      assert front == Zeros(z);
    } else {
      NumeralReads(z, n / 10);
    }
    OneMoreDigit(front, 0x30 + n % 10);
    assert Zeros(z) + Numeral(n) == front + [0x30 + n % 10];
  }

  lemma NumeralGrows(m: nat, d: nat)
    requires m > 0 && d < 10
    ensures Numeral(m * 10 + d) == Numeral(m) + [0x30 + d]
  {
    assert (m * 10 + d) / 10 == m && (m * 10 + d) % 10 == d;
  }

  /** Every digit run is such a numeral. */
  lemma {:induction false} EveryRunIsNumeral(digits: seq<Digit>) returns (z: nat, n: nat)
    requires digits != []
    ensures digits == Zeros(z) + Numeral(n)
  {
    var last := |digits| - 1;
    var d: nat := digits[last] as int - 0x30;
    assert digits == digits[..last] + [digits[last]];
    if last == 0 {
      z, n := 0, d;
    } else {
      var y, m := EveryRunIsNumeral(digits[..last]);
      if m == 0 {
        z, n := y + 1, d;
        assert Numeral(0) == [0x30];
      } else {
        z, n := y, m * 10 + d;
        NumeralGrows(m, d);
      }
    }
  }

  // ---- Statements piece by piece

  datatype Piece =
    | Plain(octet: Byte)
    | Next
    | Nth(zeros: nat, n: nat)

  function Spelled(piece: Piece): seq<Byte> {
    match piece
    case Plain(octet) => [octet]
    case Next => [MARK]
    case Nth(zeros, n) => [MARK] + Zeros(zeros) + Numeral(n)
  }

  function Written(pieces: seq<Piece>): seq<Byte> {
    if pieces == [] then [] else Spelled(pieces[0]) + Written(pieces[1..])
  }

  /** Plain octets are no question marks, and none that follows a placeholder is a digit. */
  predicate Apart(pieces: seq<Piece>) {
    forall k | 0 <= k < |pieces| && pieces[k].Plain? ::
      && pieces[k].octet != MARK
      && (k > 0 && !pieces[k - 1].Plain? ==> !(0x30 <= pieces[k].octet <= 0x39))
  }

  /** The largest index in use after a piece. */
  function Counted(max: nat, piece: Piece): nat {
    match piece
    case Plain(_) => max
    case Next => max + 1
    case Nth(_, n) => if n > max then n else max
  }

  /** The index the `k`-th piece asks for: a bare placeholder one more than the largest before it. */
  function Wanted(max: nat, pieces: seq<Piece>, k: nat): nat
    requires k < |pieces|
    decreases k
  {
    if k > 0 then Wanted(Counted(max, pieces[0]), pieces[1..], k - 1)
    else if pieces[0].Nth? then pieces[0].n else max + 1
  }

  /** The `k`-th piece needs no value, or there is one: index 0 takes the first value, index i the i-th. */
  predicate Served(max: nat, pieces: seq<Piece>, params: seq<Value>, k: nat)
    requires k < |pieces|
  {
    || pieces[k].Plain?
    || (&& params != []
        && Wanted(max, pieces, k) <= |params|
        && (pieces[k].Nth? ==> pieces[k].n <= 0xFFFF_FFFF_FFFF_FFFF))
  }

  predicate AllServed(max: nat, pieces: seq<Piece>, params: seq<Value>) {
    forall k | 0 <= k < |pieces| :: Served(max, pieces, params, k)
  }

  lemma ServedTail(max: nat, pieces: seq<Piece>, params: seq<Value>)
    requires pieces != []
    ensures forall k | 0 <= k < |pieces| - 1 ::
              && Wanted(max, pieces, k + 1) == Wanted(Counted(max, pieces[0]), pieces[1..], k)
              && (Served(max, pieces, params, k + 1) <==> Served(Counted(max, pieces[0]), pieces[1..], params, k))
  {}

  /** The values of the placeholders in order. */
  function Chosen(max: nat, pieces: seq<Piece>, params: seq<Value>): seq<Value>
    requires AllServed(max, pieces, params)
    decreases |pieces|
  {
    if pieces == [] then [] else
      var index := Wanted(max, pieces, 0);
      assert Served(max, pieces, params, 0);
      ServedTail(max, pieces, params);
      (if pieces[0].Plain? then [] else [params[if index == 0 then 0 else index - 1]])
      + Chosen(Counted(max, pieces[0]), pieces[1..], params)
  }

  function Marked(pieces: seq<Piece>): seq<Byte> {
    seq(|pieces|, i requires 0 <= i < |pieces| => if pieces[i].Plain? then pieces[i].octet else MARK)
  }

  /** The first piece without a value is the `k`-th, and the rewriting reports it. */
  ghost predicate Reports(max: nat, pieces: seq<Piece>, params: seq<Value>, k: nat, error: Error)
    requires k < |pieces|
  {
    && !Served(max, pieces, params, k)
    && (forall j | 0 <= j < k :: Served(max, pieces, params, j))
    && error == match pieces[k]
                case Nth(zeros, n) =>
                  if n > 0xFFFF_FFFF_FFFF_FFFF then InvalidIndex(Zeros(zeros) + Numeral(n)) else InvalidParameterName(n)
                case _ => InvalidParameterName(Wanted(max, pieces, k))
  }

  lemma ApartTail(pieces: seq<Piece>)
    requires pieces != [] && Apart(pieces)
    ensures Apart(pieces[1..])
    ensures !pieces[0].Plain? && Written(pieces[1..]) != [] ==> !IsDigit(Written(pieces[1..])[0])
  {
    hide Numeral, Zeros;
    var rest := pieces[1..];
    forall k | 0 <= k < |rest| && rest[k].Plain?
      ensures rest[k].octet != MARK && (k > 0 && !rest[k - 1].Plain? ==> !(0x30 <= rest[k].octet <= 0x39))
    {
      assert rest[k] == pieces[k + 1] && (k > 0 ==> rest[k - 1] == pieces[k]);
    }
    if rest != [] { assert rest[0] == pieces[1]; }
  }

  /** What one piece makes of the rewriting of what follows it. */
  function Front(piece: Piece, max: nat, params: seq<Value>, rest: Rewrite): Rewrite {
    var index := if piece.Nth? then piece.n else max + 1;
    if piece.Plain? then Prepend(piece.octet, [], rest)
    else if piece.Nth? && piece.n > 0xFFFF_FFFF_FFFF_FFFF then Err(InvalidIndex(Zeros(piece.zeros) + Numeral(piece.n)))
    else if params == [] || index > |params| then Err(InvalidParameterName(index))
    else Prepend(MARK, [params[if index == 0 then 0 else index - 1]], rest)
  }

  lemma PieceRewrites(piece: Piece, rest: seq<Byte>, params: seq<Value>, max: nat)
    requires piece.Plain? ==> piece.octet != MARK
    requires !piece.Plain? && rest != [] ==> !IsDigit(rest[0])
    ensures Rewritten(Spelled(piece) + rest, params, max) ==
            Front(piece, max, params, Rewritten(rest, params, Counted(max, piece)))
  {
    match piece {
      case Plain(octet) => LiteralRewrites(octet, rest, params, max);
      case Next => BareFront(rest, params, max);
      case Nth(zeros, n) => NthFront(zeros, n, rest, params, max);
    }
  }

  lemma BareFront(rest: seq<Byte>, params: seq<Value>, max: nat)
    requires rest != [] ==> !IsDigit(rest[0])
    ensures Rewritten([MARK] + rest, params, max) == Front(Next, max, params, Rewritten(rest, params, max + 1))
  {
    hide Numeral, Zeros, Explicit;
    var b := [MARK] + rest;
    assert b[1..] == rest && rest[0..] == rest;
  }

  lemma NthFront(zeros: nat, n: nat, rest: seq<Byte>, params: seq<Value>, max: nat)
    requires rest != [] ==> !IsDigit(rest[0])
    ensures Rewritten([MARK] + Zeros(zeros) + Numeral(n) + rest, params, max) ==
            Front(Nth(zeros, n), max, params, Rewritten(rest, params, Counted(max, Nth(zeros, n))))
  {
    hide Numeral, Zeros, Explicit, DigitRun;
    var digits := Zeros(zeros) + Numeral(n);
    var b := [MARK] + Zeros(zeros) + Numeral(n) + rest;
    assert b[1..] == digits + rest;
    NumeralReads(zeros, n);
    AllDigits(digits);
    DigitRunAppend(digits, rest);
    assert b[1..][..|digits|] == digits && b[1..][|digits|..] == rest;
  }

  /** Accepted exactly if every placeholder has its value; each is then a `?` with that value, and the rest of the text
      stands. Otherwise the first placeholder without a value decides the error. */
  ghost predicate ReadsAs(r: Rewrite, max: nat, pieces: seq<Piece>, params: seq<Value>) {
    && (r.Ok? <==> AllServed(max, pieces, params))
    && (r.Ok? ==> r.value == (Marked(pieces), Chosen(max, pieces, params)))
    && (r.Err? ==> exists k | 0 <= k < |pieces| :: Reports(max, pieces, params, k, r.error))
  }

  lemma {:induction false} StatementReads(pieces: seq<Piece>, params: seq<Value>, max: nat)
    requires Apart(pieces)
    ensures ReadsAs(Rewritten(Written(pieces), params, max), max, pieces, params)
    decreases |pieces|
  {
    hide Spelled, Rewritten, Apart, ReadsAs, Front;
    if pieces == [] {
      NothingReads(params, max);
    } else {
      var piece, rest := pieces[0], pieces[1..];
      var after := Counted(max, piece);
      ApartTail(pieces);
      StatementReads(rest, params, after);
      FirstIsPlainOctet(pieces);
      PieceRewrites(piece, Written(rest), params, max);
      StatementStep(Rewritten(Written(rest), params, after), pieces, params, max);
    }
  }

  lemma NothingReads(params: seq<Value>, max: nat)
    ensures Rewritten([], params, max) == Ok(([], []))
    ensures ReadsAs(Ok(([], [])), max, [], params)
  {
    assert Marked([]) == [];
  }

  lemma FirstIsPlainOctet(pieces: seq<Piece>)
    requires pieces != [] && Apart(pieces)
    ensures pieces[0].Plain? ==> pieces[0].octet != MARK
  {}

  lemma StatementStep(rest: Rewrite, pieces: seq<Piece>, params: seq<Value>, max: nat)
    requires pieces != [] && ReadsAs(rest, Counted(max, pieces[0]), pieces[1..], params)
    ensures ReadsAs(Front(pieces[0], max, params, rest), max, pieces, params)
  {
    hide Numeral, Zeros;
    ServedTail(max, pieces, params);
    if !Served(max, pieces, params, 0) {
      assert Reports(max, pieces, params, 0, Front(pieces[0], max, params, rest).error);
    } else if rest.Err? {
      FaultStep(rest, pieces, params, max);
    } else {
      ServedStep(pieces, params, max);
      assert Marked(pieces) == [if pieces[0].Plain? then pieces[0].octet else MARK] + Marked(pieces[1..]);
    }
  }

  lemma FaultStep(rest: Rewrite, pieces: seq<Piece>, params: seq<Value>, max: nat)
    requires pieces != [] && ReadsAs(rest, Counted(max, pieces[0]), pieces[1..], params)
    requires rest.Err? && Served(max, pieces, params, 0)
    ensures Front(pieces[0], max, params, rest) == rest
    ensures !AllServed(max, pieces, params)
    ensures exists k | 0 <= k < |pieces| :: Reports(max, pieces, params, k, rest.error)
  {
    hide Numeral, Zeros;
    var after := Counted(max, pieces[0]);
    ServedTail(max, pieces, params);
    var k :| 0 <= k < |pieces[1..]| && Reports(after, pieces[1..], params, k, rest.error);
    assert !Served(max, pieces, params, k + 1);
    forall j | 0 <= j < k + 1 ensures Served(max, pieces, params, j) {
      if j > 0 { assert Served(after, pieces[1..], params, j - 1); }
    }
    assert Reports(max, pieces, params, k + 1, rest.error);
  }

  lemma ServedStep(pieces: seq<Piece>, params: seq<Value>, max: nat)
    requires pieces != [] && Served(max, pieces, params, 0)
    ensures AllServed(max, pieces, params) <==> AllServed(Counted(max, pieces[0]), pieces[1..], params)
  {
    var after := Counted(max, pieces[0]);
    ServedTail(max, pieces, params);
    if AllServed(after, pieces[1..], params) {
      forall k | 0 <= k < |pieces| ensures Served(max, pieces, params, k) {
        if k > 0 { assert Served(after, pieces[1..], params, k - 1); }
      }
    }
  }

  lemma NumberedPiece(run: seq<Byte>) returns (piece: Piece)
    requires run != [] && forall i | 0 <= i < |run| :: IsDigit(run[i])
    ensures !piece.Plain? && Spelled(piece) == [MARK] + run
  {
    hide Numeral, Zeros;
    var zeros, n := EveryRunIsNumeral(run);
    piece := Nth(zeros, n);
    assert [MARK] + Zeros(zeros) + Numeral(n) == [MARK] + (Zeros(zeros) + Numeral(n));
  }

  lemma FirstPiece(b: seq<Byte>) returns (piece: Piece, next: seq<Byte>)
    requires b != []
    ensures b == Spelled(piece) + next && |next| < |b|
    ensures piece.Plain? ==> piece.octet != MARK
    ensures !piece.Plain? && next != [] ==> !IsDigit(next[0])
  {
    hide DigitRun;
    var rest := b[1..];
    assert b == [b[0]] + rest;
    if b[0] != MARK {
      piece, next := Plain(b[0]), rest;
    } else {
      hide Spelled;
      var n := DigitRun(rest);
      var run;
      run, next := rest[..n], rest[n..];
      if n == 0 {
        piece := Next;
        assert Spelled(Next) == [MARK] by { BareSpelling(); }
        assert next == rest;
      } else {
        piece := NumberedPiece(run);
        assert [MARK] + run + next == [MARK] + (run + next);
      }
    }
  }

  lemma BareSpelling()
    ensures Spelled(Next) == [MARK]
  {}

  /** Every text is such a statement. */
  lemma {:induction false} EveryTextIsWritten(b: seq<Byte>) returns (pieces: seq<Piece>)
    ensures Written(pieces) == b && Apart(pieces)
    decreases |b|
  {
    hide Spelled, Apart;
    pieces := [];
    if b == [] {
      NothingIsApart();
    } else {
      var piece, next := FirstPiece(b);
      var rest := EveryTextIsWritten(next);
      pieces := [piece] + rest;
      assert pieces[1..] == rest;
      ApartCons(piece, rest, next);
    }
  }

  lemma NothingIsApart()
    ensures Apart([])
  {}

  lemma ApartCons(piece: Piece, rest: seq<Piece>, next: seq<Byte>)
    requires Apart(rest) && Written(rest) == next
    requires piece.Plain? ==> piece.octet != MARK
    requires !piece.Plain? && next != [] ==> !IsDigit(next[0])
    ensures Apart([piece] + rest)
  {
    hide Numeral, Zeros;
    var pieces := [piece] + rest;
    forall k | 0 <= k < |pieces| && pieces[k].Plain?
      ensures pieces[k].octet != MARK && (k > 0 && !pieces[k - 1].Plain? ==> !(0x30 <= pieces[k].octet <= 0x39))
    {
      if k > 0 {
        assert pieces[k] == rest[k - 1] && (k > 1 ==> pieces[k - 1] == rest[k - 2]);
        if k == 1 { assert next[0] == rest[0].octet; }
      }
    }
  }

  /** An explicit index i reads the i-th value, whatever zeros are written in front of it; one beyond `usize` is refused. */
  lemma LonePlaceholder(zeros: nat, n: nat, params: seq<Value>)
    ensures var r := Rewritten([MARK] + Zeros(zeros) + Numeral(n), params, 0);
            && (1 <= n <= |params| && n <= 0xFFFF_FFFF_FFFF_FFFF ==> r == Ok(([MARK], [params[n - 1]])))
            && (n == 0 && params != [] ==> r == Ok(([MARK], [params[0]])))
            && (n > 0xFFFF_FFFF_FFFF_FFFF ==> r == Err(InvalidIndex(Zeros(zeros) + Numeral(n))))
            && (n <= 0xFFFF_FFFF_FFFF_FFFF && (n > |params| || params == []) ==> r == Err(InvalidParameterName(n)))
  {
    hide Numeral, Zeros, Rewritten;
    var b := [MARK] + Zeros(zeros) + Numeral(n);
    NthFront(zeros, n, [], params, 0);
    NothingReads(params, n);
    assert b + [] == b;
    if params != [] && n <= |params| {
      var mark, value := [MARK], [params[if n == 0 then 0 else n - 1]];
      assert mark + [] == mark && value + [] == value;
    }
  }
}
