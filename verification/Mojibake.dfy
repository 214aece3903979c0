/** Repair of text whose UTF-8 octets were read as Latin-1 by an upstream API. */
module Mojibake {
  import opened Utf8

  predicate IsCjk(c: char) {
    0x4E00 <= c as int <= 0x9FFF
  }

  predicate HasCjk(s: string) {
    exists i | 0 <= i < |s| :: IsCjk(s[i])
  }

  predicate FitsLatin1(s: string) {
    forall i | 0 <= i < |s| :: s[i] as int <= 0xFF
  }

  /** The text is what a Latin-1 reader makes of `original`'s UTF-8 octets. */
  predicate MisreadingOf(value: string, original: string) {
    value == Latin1(Encode(original))
  }

  /** The octets a Latin-1 text stands for. */
  function Octets(s: string): (b: seq<Byte>)
    requires FitsLatin1(s)
    ensures Latin1(b) == s
  {
    seq(|s|, i requires 0 <= i < |s| => s[i] as int)
  }

  function Repaired(value: string): string {
    if FitsLatin1(value) && Decode(Octets(value)).Some? && HasCjk(Decode(Octets(value)).value)
    then Decode(Octets(value)).value
    else value
  }

  /** Some character lies in U+4E00 to U+9FFF. */
  ghost predicate ShowsCjk(s: string) {
    exists i | 0 <= i < |s| :: 0x4E00 <= s[i] as int <= 0x9FFF
  }

  /** A misreading of a text that shows CJK is undone, any other value is left alone. */
  ghost predicate Undoes(value: string, repaired: string) {
    && (forall original | value == Latin1(Encode(original)) :: repaired == if ShowsCjk(original) then original else value)
    && (repaired != value ==> value == Latin1(Encode(repaired)) && ShowsCjk(repaired))
  }

  method RepairMojibakeUtf8(value: string) returns (repaired: string)
    ensures repaired == Repaired(value)
    ensures Undoes(value, repaired)
  {
    hide Undoes, Encode, Decode;
    RepairUndoes(value);
    var bytes: seq<Byte> := [];
    var i := 0;
    while i < |value|
      invariant 0 <= i <= |value|
      invariant FitsLatin1(value[..i])
      invariant bytes == Octets(value[..i])
    {
      var code := value[i] as int;
      if code > 0xFF {
        assert !FitsLatin1(value);
        return value;
      }
      bytes := bytes + [code];
      i := i + 1;
    }
    assert value[..i] == value;
    match Decode(bytes)
    case Some(text) =>
      var j, found := 0, false;
      while j < |text| && !found
        invariant 0 <= j <= |text|
        invariant found <==> HasCjk(text[..j])
      {
        found := IsCjk(text[j]);
        assert text[..j + 1][j] == text[j];
        assert forall k | 0 <= k < j :: text[..j + 1][k] == text[..j][k];
        j := j + 1;
      }
      assert found <==> HasCjk(text) by {
        assert !found ==> text[..j] == text;
        if found {
          var k :| 0 <= k < j && IsCjk(text[..j][k]);
          assert IsCjk(text[k]);
        }
      }
      repaired := if found then text else value;
    case None =>
      repaired := value;
  }

  /** Repair answers with `original` exactly when the input is `original`'s misreading and has CJK to show for it,
      and otherwise hands the input back. */
  lemma RepairsExactlyMisreadings(value: string, original: string)
    ensures MisreadingOf(value, original) && HasCjk(original) ==> Repaired(value) == original
    ensures Repaired(value) != value ==> MisreadingOf(value, Repaired(value)) && HasCjk(Repaired(value))
  {
    if MisreadingOf(value, original) {
      assert FitsLatin1(value);
      Latin1Injective(Octets(value), Encode(original));
      DecodeInvertsEncode(original);
    }
    if Repaired(value) != value {
      EncodeInvertsDecode(Octets(value));
    }
  }

  lemma RepairUndoes(value: string)
    ensures Undoes(value, Repaired(value))
  {
    hide Encode, Decode, Latin1;
    RepairsExactlyMisreadings(value, "");
    forall original | value == Latin1(Encode(original))
      ensures Repaired(value) == if ShowsCjk(original) then original else value
    {
      RepairsExactlyMisreadings(value, original);
      if Repaired(value) != value { OnlyMisreading(value, original); }
    }
  }

  lemma OnlyMisreading(value: string, original: string)
    requires MisreadingOf(value, original) && Repaired(value) != value
    ensures Repaired(value) == original
  {
    RepairsExactlyMisreadings(value, original);
    Latin1Injective(Encode(Repaired(value)), Encode(original));
    DecodeInvertsEncode(original);
    DecodeInvertsEncode(Repaired(value));
  }

  /** A text with a character beyond Latin-1 cannot be a misreading and is left alone. */
  lemma WideTextUnchanged(value: string)
    requires !FitsLatin1(value)
    ensures Repaired(value) == value
    ensures forall original :: !MisreadingOf(value, original)
  {
    forall original ensures !MisreadingOf(value, original) {
      assert FitsLatin1(Latin1(Encode(original)));
    }
  }

  lemma RepairIdempotent(value: string)
    ensures Repaired(Repaired(value)) == Repaired(value)
  {
    if Repaired(value) != value {
      RepairsExactlyMisreadings(value, "");
      assert !FitsLatin1(Repaired(value));
    }
  }
}
