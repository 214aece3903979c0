/** UTF-8 as RFC 3629 defines it: the encoder of section 3 and the ABNF decoder of section 4. */
module Utf8 {
  import opened Wrappers

  type Byte = n: int | 0 <= n < 0x100

  /** A continuation octet carries the six low bits of its argument. */
  function TailOctet(n: nat): Byte {
    0x80 + n % 0x40
  }

  /** Section 3: the octets of one scalar value. */
  function EncodeChar(c: char): (b: seq<Byte>)
    ensures 1 <= |b| <= 4
  {
    var n := c as int;
    if n < 0x80 then [n]
    else if n < 0x800 then [0xC0 + n / 0x40, TailOctet(n)]
    else if n < 0x10000 then [0xE0 + n / 0x40 / 0x40, TailOctet(n / 0x40), TailOctet(n)]
    else [0xF0 + n / 0x40 / 0x40 / 0x40, TailOctet(n / 0x40 / 0x40), TailOctet(n / 0x40), TailOctet(n)]
  }

  function Encode(s: string): seq<Byte> {
    if s == "" then [] else EncodeChar(s[0]) + Encode(s[1..])
  }

  predicate Tail(b: Byte) {
    0x80 <= b <= 0xBF
  }

  /** Section 4, UTF8-1 to UTF8-4: how many octets at the front form one character, 0 if none do. */
  function FrontLength(b: seq<Byte>): (n: nat)
    ensures n <= |b|
  {
    if |b| >= 1 && b[0] <= 0x7F then 1
    else if |b| >= 2 && 0xC2 <= b[0] <= 0xDF && Tail(b[1]) then 2
    else if |b| >= 3 && Tail(b[2]) &&
      (|| (b[0] == 0xE0 && 0xA0 <= b[1] <= 0xBF)
       || (0xE1 <= b[0] <= 0xEC && Tail(b[1]))
       || (b[0] == 0xED && 0x80 <= b[1] <= 0x9F)
       || (0xEE <= b[0] <= 0xEF && Tail(b[1]))) then 3
    else if |b| >= 4 && Tail(b[2]) && Tail(b[3]) &&
      (|| (b[0] == 0xF0 && 0x90 <= b[1] <= 0xBF)
       || (0xF1 <= b[0] <= 0xF3 && Tail(b[1]))
       || (b[0] == 0xF4 && 0x80 <= b[1] <= 0x8F)) then 4
    else 0
  }

  /** The scalar value carried by a well-formed front. */
  function FrontChar(b: seq<Byte>): char
    requires FrontLength(b) != 0
  {
    var n := FrontLength(b);
    if n == 1 then b[0] as char
    else if n == 2 then Extend(b[0] as int - 0xC0, b[1]) as char
    else if n == 3 then Extend(Extend(b[0] as int - 0xE0, b[1]), b[2]) as char
    else Extend(Extend(Extend(b[0] as int - 0xF0, b[1]), b[2]), b[3]) as char
  }

  /** Shifts in the six bits of a continuation octet. */
  function Extend(high: int, tail: Byte): int {
    high * 0x40 + (tail as int - 0x80)
  }

  lemma ExtendSplit(n: nat)
    ensures Extend(n / 0x40, TailOctet(n)) == n
  {}

  lemma SplitExtend(high: nat, tail: Byte)
    requires Tail(tail)
    ensures Extend(high, tail) / 0x40 == high && TailOctet(Extend(high, tail)) == tail
  {}

  /** `String::from_utf8`: strict decoding, rejecting the whole input at the first bad sequence. */
  function Decode(b: seq<Byte>): Option<string> {
    if b == [] then Some("")
    else if FrontLength(b) == 0 then None
    else
      match Decode(b[FrontLength(b)..])
      case Some(s) => Some([FrontChar(b)] + s)
      case None => None
  }

  lemma FrontOfEncoded(c: char, rest: seq<Byte>)
    ensures FrontLength(EncodeChar(c) + rest) == |EncodeChar(c)|
    ensures FrontChar(EncodeChar(c) + rest) == c
  {
    var n := c as int;
    var b := EncodeChar(c) + rest;
    ExtendSplit(n);
    ExtendSplit(n / 0x40);
    ExtendSplit(n / 0x40 / 0x40);
    assert forall i | 0 <= i < |EncodeChar(c)| :: b[i] == EncodeChar(c)[i];
  }

  lemma EncodedFront(b: seq<Byte>)
    requires FrontLength(b) != 0
    ensures EncodeChar(FrontChar(b)) == b[..FrontLength(b)]
  {
    var n := FrontLength(b);
    if n == 2 {
      SplitExtend(b[0] as int - 0xC0, b[1]);
    } else if n == 3 {
      var high := Extend(b[0] as int - 0xE0, b[1]);
      SplitExtend(b[0] as int - 0xE0, b[1]);
      SplitExtend(high, b[2]);
    } else if n == 4 {
      var high := Extend(b[0] as int - 0xF0, b[1]);
      SplitExtend(b[0] as int - 0xF0, b[1]);
      SplitExtend(high, b[2]);
      SplitExtend(Extend(high, b[2]), b[3]);
    }
  }

  lemma {:induction false} DecodeInvertsEncode(s: string)
    ensures Decode(Encode(s)) == Some(s)
  {
    if s != "" {
      FrontOfEncoded(s[0], Encode(s[1..]));
      DecodeInvertsEncode(s[1..]);
      assert Encode(s)[|EncodeChar(s[0])|..] == Encode(s[1..]);
      assert s == [s[0]] + s[1..];
    }
  }

  lemma {:induction false} EncodeInvertsDecode(b: seq<Byte>)
    requires Decode(b).Some?
    ensures Encode(Decode(b).value) == b
  {
    hide FrontLength, EncodeChar;
    if b != [] {
      var n := FrontLength(b);
      EncodedFront(b);
      EncodeInvertsDecode(b[n..]);
      assert b == b[..n] + b[n..];
    }
  }

  /** Strict decoding accepts exactly the encodings, each with its one source text. */
  lemma DecodesExactlyEncodings(b: seq<Byte>, s: string)
    ensures Decode(b) == Some(s) <==> b == Encode(s)
  {
    DecodeInvertsEncode(s);
    if Decode(b) == Some(s) {
      EncodeInvertsDecode(b);
    }
  }

  predicate IsAscii(s: string) {
    forall i | 0 <= i < |s| :: s[i] as int < 0x80
  }

  /** Reading octets one per character, as ISO 8859-1 does. */
  function Latin1(b: seq<Byte>): (s: string)
    ensures |s| == |b|
    ensures forall i | 0 <= i < |b| :: s[i] == b[i] as char
  {
    seq(|b|, i requires 0 <= i < |b| => b[i] as char)
  }

  lemma Latin1Injective(a: seq<Byte>, b: seq<Byte>)
    requires Latin1(a) == Latin1(b)
    ensures a == b
  {
    assert |a| == |b|;
    forall i | 0 <= i < |a| ensures a[i] == b[i] {
      assert Latin1(a)[i] == Latin1(b)[i];
      assert Latin1(a)[i] as int == a[i] && Latin1(b)[i] as int == b[i];
    }
  }

  lemma {:induction false} EncodeLength(s: string)
    ensures |Encode(s)| >= |s|
    ensures |Encode(s)| == |s| <==> IsAscii(s)
  {
    if s != "" {
      EncodeLength(s[1..]);
      assert IsAscii(s) <==> (s[0] as int < 0x80 && IsAscii(s[1..])) by {
        assert s == [s[0]] + s[1..];
        if s[0] as int < 0x80 && IsAscii(s[1..]) {
          forall i | 0 <= i < |s| ensures s[i] as int < 0x80 {
            if i > 0 { assert s[i] == s[1..][i - 1]; }
          }
        }
        if IsAscii(s) {
          forall i | 0 <= i < |s[1..]| ensures s[1..][i] as int < 0x80 { assert s[1..][i] == s[i + 1]; }
        }
      }
    }
  }

  /** Reading UTF-8 octets as Latin-1 keeps a text exactly when the text is ASCII. */
  lemma {:induction false} MisreadingKeepsExactlyAscii(s: string)
    ensures Latin1(Encode(s)) == s <==> IsAscii(s)
  {
    EncodeLength(s);
    if IsAscii(s) {
      AsciiBytes(s);
    } else {
      assert |Latin1(Encode(s))| != |s|;
    }
  }

  lemma {:induction false} AsciiBytes(s: string)
    requires IsAscii(s)
    ensures |Encode(s)| == |s|
    ensures forall i | 0 <= i < |s| :: Encode(s)[i] == s[i] as int
  {
    if s != "" {
      assert IsAscii(s[1..]);
      AsciiBytes(s[1..]);
      forall i | 0 <= i < |s| ensures Encode(s)[i] == s[i] as int {
        if i > 0 { assert Encode(s)[i] == Encode(s[1..])[i - 1]; assert s[1..][i - 1] == s[i]; }
      }
    }
  }
}
