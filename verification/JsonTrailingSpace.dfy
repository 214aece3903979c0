/** A carriage return after a JSON text changes neither whether it reads nor what it reads as. */
module JsonTrailingSpace {
  import opened Wrappers
  import opened Text
  import opened Json
  import opened JsonRoundTrip

  const RETURN := "\r"

  lemma {:induction false} SkipSpaceReturn(s: string)
    ensures SkipSpace(s + RETURN) == if SkipSpace(s) == "" then "" else SkipSpace(s) + RETURN
  {
    if s == "" {
      assert (s + RETURN)[1..] == "";
    } else {
      SkipSpaceReturn(s[1..]);
      assert (s + RETURN)[1..] == s[1..] + RETURN;
    }
  }

  lemma {:induction false} NumberReturn(s: string)
    requires s != ""
    ensures NumberLength(s + RETURN) == NumberLength(s)
  {
    hide DigitRun, IntegerLength, FractionLength, ExponentLength;
    IntegerStops(s, RETURN);
    if IntegerLength(s).Some? {
      var i := IntegerLength(s).value;
      FractionStops(s[i..], RETURN);
      assert (s + RETURN)[i..] == s[i..] + RETURN;
      if FractionLength(s[i..]).Some? {
        var f := FractionLength(s[i..]).value;
        ExponentStops(s[i..][f..], RETURN);
        assert (s + RETURN)[i..][f..] == s[i..][f..] + RETURN;
      }
    }
  }

  lemma Hex4Return(s: string)
    ensures Hex4(s + RETURN) == Hex4(s)
  {
    if |s| == 3 { assert (s + RETURN)[3] == '\r'; }
  }

  lemma UnescapeReturn(s: string)
    ensures Unescape(s + RETURN) == Unescape(s)
  {
    hide Hex4;
    if s == "" {
      assert (s + RETURN)[0] == '\r';
    } else {
      Hex4Return(s[1..]);
      assert (s + RETURN)[1..] == s[1..] + RETURN;
      if |s| >= 7 {
        Hex4Return(s[7..]);
        assert (s + RETURN)[7..] == s[7..] + RETURN;
      }
      if Hex4(s[1..]).Some? && |s| < 11 {
        SurrogateNeedsEleven(s);
      }
    }
  }

  lemma SurrogateNeedsEleven(s: string)
    requires 5 <= |s| < 11
    ensures |s| + 1 >= 11 && (s + RETURN)[6] == 'u' ==> Hex4((s + RETURN)[7..]).None?
  {
    if |s| == 10 {
      var t := (s + RETURN)[7..];
      assert |t| == 4 && t[3] == '\r';
    }
  }

  /** A reader's result on the text with a carriage return behind it. */
  function Carried<T>(r: Option<(T, string)>): Option<(T, string)> {
    match r
    case Some((v, rest)) => Some((v, rest + RETURN))
    case None => None
  }

  lemma {:induction false} StringReturn(s: string)
    ensures ParseString(s + RETURN) == Carried(ParseString(s))
    decreases |s|
  {
    hide Unescape;
    if s == "" {
      assert (s + RETURN)[0] == '\r';
    } else {
      assert (s + RETURN)[1..] == s[1..] + RETURN;
      if s[0] == '\\' {
        UnescapeReturn(s[1..]);
        if Unescape(s[1..]).Some? {
          var n := Unescape(s[1..]).value.1;
          StringReturn(s[1..][n..]);
          assert (s[1..] + RETURN)[n..] == s[1..][n..] + RETURN;
        }
      } else if s[0] != '\"' && (s[0] as int) >= 0x20 {
        StringReturn(s[1..]);
      }
    }
  }

  lemma WordReturn(s: string, word: string, v: Value)
    requires '\r' !in word
    ensures ParseWord(s + RETURN, word, v) == Carried(ParseWord(s, word, v))
  {
    if word <= s + RETURN && |word| > |s| {
      LastCharacter(s, word);
    } else if word <= s + RETURN {
      assert word == (s + RETURN)[..|word|] == s[..|word|];
      assert (s + RETURN)[|word|..] == s[|word|..] + RETURN;
    }
  }

  lemma LastCharacter(s: string, word: string)
    requires word <= s + RETURN && |word| > |s|
    ensures '\r' in word
  {
    assert word[|s|] == (s + RETURN)[|s|];
  }

  lemma {:induction false} ValueReturn(s: string, depth: nat)
    ensures ParseValue(s + RETURN, depth) == Carried(ParseValue(s, depth))
    decreases |s|, 0
  {
    SkipSpaceReturn(s);
    var t := SkipSpace(s);
    if t != "" {
      assert t == SkipSpace(t) by { SkipSpaceTwice(s); }
      assert (t + RETURN)[1..] == t[1..] + RETURN && (t + RETURN)[0] == t[0];
      TrimmedValueReturn(s, t, depth);
    }
  }

  lemma {:induction false} SkipSpaceTwice(s: string)
    ensures SkipSpace(SkipSpace(s)) == SkipSpace(s)
    ensures SkipSpace(s) != "" ==> !IsSpace(SkipSpace(s)[0])
  {
    if s != "" && IsSpace(s[0]) { SkipSpaceTwice(s[1..]); }
  }

  lemma {:induction false} TrimmedValueReturn(s: string, t: string, depth: nat)
    requires t == SkipSpace(s) && t != "" && SkipSpace(s + RETURN) == t + RETURN
    requires (t + RETURN)[1..] == t[1..] + RETURN && (t + RETURN)[0] == t[0]
    ensures ParseValue(s + RETURN, depth) == Carried(ParseValue(s, depth))
    decreases |s|, 0, 0
  {
    hide ParseItems, ParseMembers, ParseString, ParseWord, NumberLength, SkipSpace;
    WordReturn(t, "null", Null);
    WordReturn(t, "true", Bool(true));
    WordReturn(t, "false", Bool(false));
    StringReturn(t[1..]);
    if t[0] == '-' || IsDigit(t[0]) {
      NumberReturn(t);
      if NumberLength(t).Some? {
        var n := NumberLength(t).value;
        assert (t + RETURN)[..n] == t[..n] && (t + RETURN)[n..] == t[n..] + RETURN;
      }
    }
    if (t[0] == '[' || t[0] == '{') && depth > 1 {
      SkipSpaceReturn(t[1..]);
      var u := SkipSpace(t[1..]);
      if u != "" { assert (u + RETURN)[1..] == u[1..] + RETURN && (u + RETURN)[0] == u[0]; }
      ItemsReturn(t[1..], depth - 1);
      MembersReturn(t[1..], depth - 1);
    }
  }

  lemma {:induction false} ItemsReturn(s: string, depth: nat)
    ensures ParseItems(s + RETURN, depth) == Carried(ParseItems(s, depth))
    decreases |s|, 1
  {
    hide ParseValue, SkipSpace;
    ValueReturn(s, depth);
    if ParseValue(s, depth).Some? {
      var after := ParseValue(s, depth).value.1;
      SkipSpaceReturn(after);
      var t := SkipSpace(after);
      if t != "" {
        assert (t + RETURN)[1..] == t[1..] + RETURN && (t + RETURN)[0] == t[0];
        ItemsReturn(t[1..], depth);
      }
    }
  }

  lemma {:induction false} MembersReturn(s: string, depth: nat)
    ensures ParseMembers(s + RETURN, depth) == Carried(ParseMembers(s, depth))
    decreases |s|, 1
  {
    hide ParseValue, ParseString, SkipSpace;
    SkipSpaceReturn(s);
    var k := SkipSpace(s);
    if k != "" && k[0] == '\"' {
      assert (k + RETURN)[1..] == k[1..] + RETURN && (k + RETURN)[0] == k[0];
      StringReturn(k[1..]);
      if ParseString(k[1..]).Some? {
        var (key, afterKey) := ParseString(k[1..]).value;
        SkipSpaceReturn(afterKey);
        var c := SkipSpace(afterKey);
        if c != "" && c[0] == ':' {
          assert (c + RETURN)[1..] == c[1..] + RETURN && (c + RETURN)[0] == c[0];
          ValueReturn(c[1..], depth);
          if ParseValue(c[1..], depth).Some? {
            var after := ParseValue(c[1..], depth).value.1;
            SkipSpaceReturn(after);
            var t := SkipSpace(after);
            if t != "" {
              assert (t + RETURN)[1..] == t[1..] + RETURN && (t + RETURN)[0] == t[0];
              MembersReturn(t[1..], depth);
            }
          }
        }
      }
    }
  }

  lemma ParseIgnoresReturn(s: string)
    ensures Parse(s + RETURN) == Parse(s)
  {
    hide ParseValue, SkipSpace;
    ValueReturn(s, RECURSION_LIMIT);
    if ParseValue(s, RECURSION_LIMIT).Some? {
      SkipSpaceReturn(ParseValue(s, RECURSION_LIMIT).value.1);
    }
  }
}
