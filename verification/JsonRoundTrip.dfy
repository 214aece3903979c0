/** Reading back what was printed, and what reading guarantees about the values it yields. */
module JsonRoundTrip {
  import opened Wrappers
  import opened Numbers
  import opened Text
  import opened Json

  predicate IsNumber(lexeme: string) {
    NumberLength(lexeme) == Some(|lexeme|)
  }

  predicate Below(key: string, members: Members) {
    members.Member? ==> StringLe(key, members.key) && key != members.key
  }

  /** Lexemes are numbers and object keys strictly increase, all the way down. */
  predicate WellFormed(v: Value) {
    match v
    case Num(lexeme) => IsNumber(lexeme)
    case Arr(items) => WellFormedItems(items)
    case Obj(members) => WellFormedMembers(members)
    case _ => true
  }

  predicate WellFormedItems(items: Items) {
    items.Item? ==> WellFormed(items.head) && WellFormedItems(items.tail)
  }

  predicate WellFormedMembers(members: Members) {
    members.Member? ==> WellFormed(members.value) && WellFormedMembers(members.tail) && Below(members.key, members.tail)
  }

  function Depth(v: Value): nat {
    match v
    case Arr(items) => 1 + DepthItems(items)
    case Obj(members) => 1 + DepthMembers(members)
    case _ => 0
  }

  function DepthItems(items: Items): nat {
    match items
    case NoItems => 0
    case Item(head, tail) => Max(Depth(head), DepthItems(tail))
  }

  function DepthMembers(members: Members): nat {
    match members
    case NoMembers => 0
    case Member(_, value, tail) => Max(Depth(value), DepthMembers(tail))
  }

  // ---- Strings

  lemma EscapedCharReadsBack(c: char, rest: string)
    ensures var escaped := EscapeChar(c) + rest;
            ParseString(escaped) ==
            match ParseString(rest)
            case None => None
            case Some((text, more)) => Some(([c] + text, more))
  {
    hide Unescape;
    var escaped := EscapeChar(c);
    if escaped == [c] {
      assert (escaped + rest)[1..] == rest;
    } else {
      var s := (escaped + rest)[1..];
      assert s == escaped[1..] + rest;
      if |escaped| == 2 { ShortEscapeReads(c, s); } else { LongEscapeReads(c, s); }
      assert s[|escaped| - 1..] == rest;
    }
  }

  lemma ShortEscapeReads(c: char, s: string)
    requires |EscapeChar(c)| == 2 && s != "" && s[0] == EscapeChar(c)[1]
    ensures EscapeChar(c)[0] == '\\' && Unescape(s) == Some((c, 1))
  {
    hide Hex4;
  }

  lemma LongEscapeReads(c: char, s: string)
    requires |EscapeChar(c)| > 2 && EscapeChar(c)[1..] <= s
    ensures EscapeChar(c)[0] == '\\' && |EscapeChar(c)| == 6 && Unescape(s) == Some((c, 5))
  {
    var n := c as int;
    var tail := EscapeChar(c)[1..];
    assert tail == "u00" + [HexDigit(n / 16), HexDigit(n % 16)];
    assert s[..5] == tail;
    assert s[0] == tail[0] && s[1] == tail[1] && s[2] == tail[2] && s[3] == tail[3] && s[4] == tail[4];
    HexDigitReads(n / 16);
    HexDigitReads(n % 16);
    assert Hex4(s[1..]) == Some(n);
  }

  lemma HexDigitReads(n: nat)
    requires n < 16
    ensures HexValue(HexDigit(n)) == Some(n)
  {
  }

  lemma {:induction false} StringReadsBack(s: string, rest: string)
    ensures ParseString(Escape(s) + "\"" + rest) == Some((s, rest))
  {
    if s == "" {
      assert (Escape(s) + "\"" + rest)[1..] == rest;
    } else {
      StringReadsBack(s[1..], rest);
      var more := Escape(s[1..]) + "\"" + rest;
      assert Escape(s) + "\"" + rest == EscapeChar(s[0]) + more;
      EscapedCharReadsBack(s[0], more);
      assert s == [s[0]] + s[1..];
    }
  }

  lemma QuotedReadsBack(s: string, rest: string)
    ensures Quote(s) != "" && (Quote(s) + rest)[0] == '\"'
    ensures ParseString((Quote(s) + rest)[1..]) == Some((s, rest))
  {
    assert (Quote(s) + rest)[1..] == Escape(s) + "\"" + rest;
    StringReadsBack(s, rest);
  }

  // ---- Numbers

  /** What may follow a value: the rest of a document, or a carriage return. */
  predicate Stops(rest: string) {
    rest == "" || rest[0] in {',', ']', '}', '\r'}
  }

  lemma {:induction false} DigitRunStops(s: string, rest: string)
    requires Stops(rest)
    ensures DigitRun(s + rest) == DigitRun(s)
  {
    if s == "" {
      assert s + rest == rest;
    } else {
      DigitRunStops(s[1..], rest);
      assert (s + rest)[1..] == s[1..] + rest;
    }
  }

  lemma FractionStops(s: string, rest: string)
    requires Stops(rest)
    ensures FractionLength(s + rest) == FractionLength(s)
  {
    if s != "" {
      assert (s + rest)[1..] == s[1..] + rest;
      DigitRunStops(s[1..], rest);
    }
  }

  lemma ExponentStops(s: string, rest: string)
    requires Stops(rest)
    ensures ExponentLength(s + rest) == ExponentLength(s)
  {
    if s != "" {
      var sign := if |s| > 1 && (s[1] == '+' || s[1] == '-') then 1 else 0;
      assert (s + rest)[1 + sign..] == s[1 + sign..] + rest;
      DigitRunStops(s[1 + sign..], rest);
    }
  }

  lemma IntegerStops(s: string, rest: string)
    requires s != "" && Stops(rest)
    ensures IntegerLength(s + rest) == IntegerLength(s)
  {
    var sign := if s[0] == '-' then 1 else 0;
    assert (s + rest)[sign..] == s[sign..] + rest;
    DigitRunStops(s[sign..], rest);
  }

  lemma NumberStarts(lexeme: string)
    requires IsNumber(lexeme)
    ensures lexeme != "" && (lexeme[0] == '-' || IsDigit(lexeme[0]))
  {
    hide FractionLength, ExponentLength;
  }

  lemma NumberReadsBack(lexeme: string, rest: string)
    requires IsNumber(lexeme) && Stops(rest)
    ensures NumberLength(lexeme + rest) == Some(|lexeme|)
    ensures lexeme != "" && (lexeme[0] == '-' || IsDigit(lexeme[0]))
  {
    NumberStarts(lexeme);
    hide DigitRun, IntegerLength, FractionLength, ExponentLength, NumberLength;
    var i, f, e := NumberSplits(lexeme);
    var afterInteger := lexeme[i..];
    var afterFraction := afterInteger[f..];
    IntegerStops(lexeme, rest);
    DropOfAppend(lexeme, rest, i);
    FractionStops(afterInteger, rest);
    DropOfAppend(afterInteger, rest, f);
    ExponentStops(afterFraction, rest);
    NumberOfParts(lexeme + rest, i, f, e);
  }

  lemma DropOfAppend(s: string, rest: string, n: nat)
    requires n <= |s|
    ensures (s + rest)[n..] == s[n..] + rest
  {}

  lemma NumberSplits(s: string) returns (i: nat, f: nat, e: nat)
    requires NumberLength(s).Some?
    ensures IntegerLength(s) == Some(i) && i <= |s|
    ensures FractionLength(s[i..]) == Some(f) && f <= |s[i..]|
    ensures ExponentLength(s[i..][f..]) == Some(e)
    ensures NumberLength(s) == Some(i + f + e)
  {
    hide IntegerLength, FractionLength, ExponentLength;
    i := IntegerLength(s).value;
    f := FractionLength(s[i..]).value;
    e := ExponentLength(s[i..][f..]).value;
  }

  lemma NumberOfParts(s: string, i: nat, f: nat, e: nat)
    requires i <= |s| && IntegerLength(s) == Some(i)
    requires f <= |s[i..]| && FractionLength(s[i..]) == Some(f)
    requires ExponentLength(s[i..][f..]) == Some(e)
    ensures NumberLength(s) == Some(i + f + e)
  {
    hide IntegerLength, FractionLength, ExponentLength;
  }

  // ---- Values

  lemma PrintStarts(v: Value)
    requires WellFormed(v)
    ensures Print(v) != "" && !IsSpace(Print(v)[0]) && Print(v)[0] != ']' && Print(v)[0] != '}'
  {
    if v.Num? { NumberReadsBack(v.lexeme, ""); }
  }

  lemma {:induction false} LowKeyIsAbsent(key: string, members: Members)
    requires WellFormedMembers(members) && Below(key, members)
    ensures Get(members, key).None?
  {
    if members.Member? {
      if members.tail.Member? {
        StringLeTransitive(key, members.key, members.tail.key);
        StringLeTotal(key, members.key);
        StringLeTotal(members.key, members.tail.key);
      }
      LowKeyIsAbsent(key, members.tail);
    }
  }

  // One step of the reader each, on text whose first character is known.

  lemma ReadArray(x: string, depth: nat, items: Items, rest: string)
    requires depth > 1 && x != "" && !IsSpace(x[0]) && x[0] != ']'
    requires ParseItems(x, depth - 1) == Some((items, rest))
    ensures ParseValue("[" + x, depth) == Some((Arr(items), rest))
  {
    assert ("[" + x)[1..] == x;
  }

  lemma ReadObject(x: string, depth: nat, members: Members, rest: string)
    requires depth > 1 && x != "" && !IsSpace(x[0]) && x[0] != '}'
    requires ParseMembers(x, depth - 1) == Some((members, rest))
    ensures ParseValue("{" + x, depth) == Some((Obj(members), rest))
  {
    assert ("{" + x)[1..] == x;
  }

  lemma ReadEmpty(rest: string, depth: nat)
    requires depth > 1
    ensures ParseValue("[" + ("]" + rest), depth) == Some((Arr(NoItems), rest))
    ensures ParseValue("{" + ("}" + rest), depth) == Some((Obj(NoMembers), rest))
  {
    assert ("[" + ("]" + rest))[1..] == "]" + rest && ("]" + rest)[1..] == rest;
    assert ("{" + ("}" + rest))[1..] == "}" + rest && ("}" + rest)[1..] == rest;
  }

  lemma ReadLastItem(s: string, depth: nat, v: Value, rest: string)
    requires ParseValue(s, depth) == Some((v, "]" + rest))
    ensures ParseItems(s, depth) == Some((Item(v, NoItems), rest))
  {
    assert ("]" + rest)[1..] == rest;
  }

  lemma ReadItem(s: string, depth: nat, v: Value, more: string, items: Items, rest: string)
    requires ParseValue(s, depth) == Some((v, "," + more))
    requires |more| < |s| && ParseItems(more, depth) == Some((items, rest))
    ensures ParseItems(s, depth) == Some((Item(v, items), rest))
  {
    assert ("," + more)[1..] == more;
  }

  lemma ReadLastMember(key: string, body: string, depth: nat, v: Value, rest: string)
    requires ParseValue(body, depth) == Some((v, "}" + rest))
    ensures ParseMembers(Quote(key) + (":" + body), depth) == Some((Member(key, v, NoMembers), rest))
  {
    QuotedReadsBack(key, ":" + body);
    assert (":" + body)[1..] == body && ("}" + rest)[1..] == rest;
  }

  lemma ReadMember(key: string, body: string, depth: nat, v: Value, more: string, members: Members, rest: string)
    requires ParseValue(body, depth) == Some((v, "," + more))
    requires ParseMembers(more, depth) == Some((members, rest)) && Get(members, key).None?
    ensures ParseMembers(Quote(key) + (":" + body), depth) == Some((Put(members, key, v), rest))
  {
    hide ParseValue, ParseString, Quote, Put, Get;
    QuotedReadsBack(key, ":" + body);
    assert (":" + body)[1..] == body && ("," + more)[1..] == more;
  }

  lemma PutLowKey(members: Members, key: string, value: Value)
    requires Below(key, members)
    ensures Put(members, key, value) == Member(key, value, members)
  {}

  lemma ReadWord(v: Value, rest: string, depth: nat)
    requires v.Null? || v.Bool?
    ensures ParseValue(Print(v) + rest, depth) == Some((v, rest))
  {
    hide ParseItems, ParseMembers, ParseString, NumberLength;
    assert (Print(v) + rest)[|Print(v)|..] == rest;
  }

  lemma ReadNumber(lexeme: string, rest: string, depth: nat)
    requires IsNumber(lexeme) && Stops(rest)
    ensures ParseValue(lexeme + rest, depth) == Some((Num(lexeme), rest))
  {
    hide ParseItems, ParseMembers, ParseString, NumberLength, ParseWord;
    var s := lexeme + rest;
    NumberReadsBack(lexeme, rest);
    assert SkipSpace(s) == s;
    assert s[..|lexeme|] == lexeme && s[|lexeme|..] == rest;
  }

  lemma ReadString(text: string, rest: string, depth: nat)
    ensures ParseValue(Quote(text) + rest, depth) == Some((Str(text), rest))
  {
    hide ParseItems, ParseMembers, ParseString, NumberLength, ParseWord;
    var s := Quote(text) + rest;
    QuotedReadsBack(text, rest);
    assert SkipSpace(s) == s;
  }

  lemma ReadScalar(v: Value, rest: string, depth: nat)
    requires WellFormed(v) && !v.Arr? && !v.Obj? && Stops(rest)
    ensures ParseValue(Print(v) + rest, depth) == Some((v, rest))
  {
    hide ParseValue;
    match v
    case Null => ReadWord(v, rest, depth);
    case Bool(_) => ReadWord(v, rest, depth);
    case Num(lexeme) => ReadNumber(lexeme, rest, depth);
    case Str(text) => ReadString(text, rest, depth);
  }

  /** Reading inverts printing, whatever follows the value. */
  lemma {:induction false} ValueReadsBack(v: Value, rest: string, depth: nat)
    requires WellFormed(v) && Depth(v) < depth && Stops(rest)
    ensures ParseValue(Print(v) + rest, depth) == Some((v, rest))
    decreases v, 0
  {
    if v.Arr? {
      ArrayReadsBack(v.items, rest, depth);
    } else if v.Obj? {
      ObjectReadsBack(v.members, rest, depth);
    } else {
      ReadScalar(v, rest, depth);
    }
  }

  lemma {:induction false} ArrayReadsBack(items: Items, rest: string, depth: nat)
    requires WellFormedItems(items) && 1 + DepthItems(items) < depth && Stops(rest)
    ensures ParseValue(Print(Arr(items)) + rest, depth) == Some((Arr(items), rest))
    decreases items, 2
  {
    hide ParseValue, ParseItems, ParseMembers;
    var t := PrintItems(items) + ("]" + rest);
    assert Print(Arr(items)) + rest == "[" + t;
    if items.Item? {
      ItemsReadBack(items, rest, depth - 1);
      PrintStarts(items.head);
      assert t[0] == Print(items.head)[0];
      ReadArray(t, depth, items, rest);
    } else {
      ReadEmpty(rest, depth);
      assert t == "]" + rest;
    }
  }

  lemma {:induction false} ObjectReadsBack(members: Members, rest: string, depth: nat)
    requires WellFormedMembers(members) && 1 + DepthMembers(members) < depth && Stops(rest)
    ensures ParseValue(Print(Obj(members)) + rest, depth) == Some((Obj(members), rest))
    decreases members, 2
  {
    hide ParseValue, ParseItems, ParseMembers;
    var t := PrintMembers(members) + ("}" + rest);
    assert Print(Obj(members)) + rest == "{" + t;
    if members.Member? {
      MembersReadBack(members, rest, depth - 1);
      assert t[0] == '\"';
      ReadObject(t, depth, members, rest);
    } else {
      ReadEmpty(rest, depth);
      assert t == "}" + rest;
    }
  }

  function ItemsEnd(tail: Items, rest: string): string {
    if tail.NoItems? then "]" + rest else "," + (PrintItems(tail) + ("]" + rest))
  }

  function MembersEnd(tail: Members, rest: string): string {
    if tail.NoMembers? then "}" + rest else "," + (PrintMembers(tail) + ("}" + rest))
  }

  lemma ItemsUnfold(items: Items)
    requires items.Item?
    ensures items.tail.NoItems? ==> PrintItems(items) == Print(items.head)
    ensures items.tail.Item? ==> PrintItems(items) == Print(items.head) + ("," + PrintItems(items.tail))
  {
    hide Print;
    assert Print(items.head) + "" == Print(items.head);
  }

  lemma RegroupItem(a: string, b: string, c: string, d: string)
    ensures a + (b + c) + d == a + (b + (c + d))
  {}

  lemma ItemsText(items: Items, rest: string)
    requires items.Item?
    ensures PrintItems(items) + ("]" + rest) == Print(items.head) + ItemsEnd(items.tail, rest)
  {
    ItemsUnfold(items);
    hide Print, PrintItems;
    var (head, end) := (Print(items.head), "]" + rest);
    if items.tail.Item? {
      RegroupItem(head, ",", PrintItems(items.tail), end);
    }
  }

  lemma MembersText(members: Members, rest: string)
    requires members.Member?
    ensures PrintMembers(members) + ("}" + rest) ==
            Quote(members.key) + (":" + (Print(members.value) + MembersEnd(members.tail, rest)))
  {
    hide Print, Quote;
    var more := if members.tail.Member? then "," + PrintMembers(members.tail) else "";
    var brace := "}" + rest;
    assert MembersEnd(members.tail, rest) == more + brace;
    Regroup(Quote(members.key), ":", Print(members.value), more, brace);
  }

  lemma Regroup(a: string, b: string, c: string, d: string, e: string)
    ensures a + b + c + d + e == a + (b + (c + (d + e)))
  {}

  lemma {:induction false} ItemsReadBack(items: Items, rest: string, depth: nat)
    requires items.Item? && WellFormedItems(items) && DepthItems(items) < depth
    ensures ParseItems(PrintItems(items) + ("]" + rest), depth) == Some((items, rest))
    decreases items, 1
  {
    hide ParseValue, ParseItems, ParseMembers, Print, PrintItems;
    var end := ItemsEnd(items.tail, rest);
    ItemsText(items, rest);
    ValueReadsBack(items.head, end, depth);
    if items.tail.NoItems? {
      ReadLastItem(Print(items.head) + end, depth, items.head, rest);
    } else {
      var more := PrintItems(items.tail) + ("]" + rest);
      ItemsReadBack(items.tail, rest, depth);
      ReadItem(Print(items.head) + end, depth, items.head, more, items.tail, rest);
    }
  }

  lemma {:induction false} MembersReadBack(members: Members, rest: string, depth: nat)
    requires members.Member? && WellFormedMembers(members) && DepthMembers(members) < depth
    ensures ParseMembers(PrintMembers(members) + ("}" + rest), depth) == Some((members, rest))
    decreases members, 1
  {
    hide ParseValue, ParseItems, ParseMembers, Print, PrintMembers, Quote;
    var end := MembersEnd(members.tail, rest);
    var body := Print(members.value) + end;
    MembersText(members, rest);
    ValueReadsBack(members.value, end, depth);
    if members.tail.NoMembers? {
      ReadLastMember(members.key, body, depth, members.value, rest);
    } else {
      var more := PrintMembers(members.tail) + ("}" + rest);
      MembersReadBack(members.tail, rest, depth);
      LowKeyIsAbsent(members.key, members.tail);
      ReadMember(members.key, body, depth, members.value, more, members.tail, rest);
      PutLowKey(members.tail, members.key, members.value);
    }
  }

  /** A well-formed value within the nesting limit survives printing and reading. */
  lemma PrintParseRoundTrip(v: Value)
    requires WellFormed(v) && Depth(v) < RECURSION_LIMIT
    ensures Parse(Print(v)) == Some(v)
  {
    ValueReadsBack(v, "", RECURSION_LIMIT);
    assert Print(v) + "" == Print(v);
  }

  // ---- What reading yields

  lemma {:induction false} PutKeepsOrder(members: Members, key: string, value: Value)
    requires WellFormedMembers(members) && WellFormed(value)
    ensures WellFormedMembers(Put(members, key, value))
    ensures forall low | Below(low, members) && StringLe(low, key) && low != key :: Below(low, Put(members, key, value))
    ensures DepthMembers(Put(members, key, value)) <= Max(DepthMembers(members), Depth(value))
  {
    if members.Member? {
      StringLeTotal(key, members.key);
      PutKeepsOrder(members.tail, key, value);
    }
  }

  lemma IntegerPrefix(s: string, n: nat)
    requires IntegerLength(s).Some? && IntegerLength(s).value <= n <= |s|
    ensures IntegerLength(s[..n]) == IntegerLength(s)
  {
    var sign := if s[0] == '-' then 1 else 0;
    DigitRunPrefix(s[sign..], n - sign);
    assert s[..n][sign..] == s[sign..][..n - sign];
  }

  lemma FractionPrefix(s: string, n: nat)
    requires FractionLength(s).Some? && FractionLength(s).value <= n <= |s|
    ensures FractionLength(s[..n]) == FractionLength(s) || n == 0
  {
    if s != "" && s[0] == '.' {
      DigitRunPrefix(s[1..], n - 1);
      assert s[..n][1..] == s[1..][..n - 1];
    }
  }

  lemma ExponentPrefix(s: string)
    requires ExponentLength(s).Some?
    ensures ExponentLength(s[..ExponentLength(s).value]) == ExponentLength(s)
  {
    var n := ExponentLength(s).value;
    if n > 0 {
      var sign := if |s| > 1 && (s[1] == '+' || s[1] == '-') then 1 else 0;
      DigitRunPrefix(s[1 + sign..], n - 1 - sign);
      assert s[..n][1 + sign..] == s[1 + sign..][..n - 1 - sign];
    }
  }

  lemma NumberPrefixIsNumber(s: string)
    requires NumberLength(s).Some?
    ensures IsNumber(s[..NumberLength(s).value])
  {
    hide DigitRun, IntegerLength, FractionLength, ExponentLength;
    var i := IntegerLength(s).value;
    var f := FractionLength(s[i..]).value;
    var e := ExponentLength(s[i..][f..]).value;
    var lexeme := s[..i + f + e];
    IntegerPrefix(s, i + f + e);
    FractionPrefix(s[i..], f + e);
    ExponentPrefix(s[i..][f..]);
    assert lexeme[i..] == s[i..][..f + e];
    assert lexeme[i..][f..] == s[i..][f..][..e];
    NothingLeft();
  }

  lemma NothingLeft()
    ensures FractionLength("") == Some(0) && ExponentLength("") == Some(0)
  {}

  lemma {:induction false} DigitRunPrefix(s: string, n: nat)
    requires DigitRun(s) <= n <= |s|
    ensures DigitRun(s[..n]) == DigitRun(s)
  {
    if s != "" && IsDigit(s[0]) {
      DigitRunPrefix(s[1..], n - 1);
      assert s[..n][1..] == s[1..][..n - 1];
    }
  }

  /** Every value read is well-formed and nested below the limit it was read under. */
  lemma {:induction false} ParsedValueIsWellFormed(s: string, depth: nat)
    ensures var r := ParseValue(s, depth); r.Some? ==> WellFormed(r.value.0) && (Depth(r.value.0) < depth || Depth(r.value.0) == 0)
    decreases |s|, 0
  {
    hide ParseItems, ParseMembers, ParseString, NumberLength;
    var t := SkipSpace(s);
    if t != "" {
      if t[0] == '[' && depth > 1 {
        ParsedItemsAreWellFormed(t[1..], depth - 1);
      } else if t[0] == '{' && depth > 1 {
        ParsedMembersAreWellFormed(t[1..], depth - 1);
      } else if (t[0] == '-' || IsDigit(t[0])) && NumberLength(t).Some? {
        NumberPrefixIsNumber(t);
      }
    }
  }

  lemma {:induction false} ParsedItemsAreWellFormed(s: string, depth: nat)
    requires depth > 0
    ensures var r := ParseItems(s, depth); r.Some? ==> WellFormedItems(r.value.0) && DepthItems(r.value.0) < depth
    decreases |s|, 1
  {
    hide ParseValue, ParseString;
    ParsedValueIsWellFormed(s, depth);
    if ParseValue(s, depth).Some? {
      var t := SkipSpace(ParseValue(s, depth).value.1);
      if t != "" && t[0] == ',' { ParsedItemsAreWellFormed(t[1..], depth); }
    }
  }

  lemma {:induction false} ParsedMembersAreWellFormed(s: string, depth: nat)
    requires depth > 0
    ensures var r := ParseMembers(s, depth); r.Some? ==> WellFormedMembers(r.value.0) && DepthMembers(r.value.0) < depth
    decreases |s|, 1
  {
    hide ParseValue, ParseString;
    if ParseMembers(s, depth).Some? {
      var k := SkipSpace(s);
      var (key, afterKey) := ParseString(k[1..]).value;
      var c := SkipSpace(afterKey);
      ParsedValueIsWellFormed(c[1..], depth);
      var (v, after) := ParseValue(c[1..], depth).value;
      var t := SkipSpace(after);
      if t[0] == ',' {
        ParsedMembersAreWellFormed(t[1..], depth);
        PutKeepsOrder(ParseMembers(t[1..], depth).value.0, key, v);
      }
    }
  }

  lemma ParsedIsWellFormed(s: string)
    ensures Parse(s).Some? ==> WellFormed(Parse(s).value) && Depth(Parse(s).value) < RECURSION_LIMIT
  {
    ParsedValueIsWellFormed(s, RECURSION_LIMIT);
  }

  // ---- Printed text is one line

  predicate NoControl(s: string) {
    forall c | c in s :: c as int >= 0x20
  }

  lemma {:induction false} EscapedHasNoControl(s: string)
    ensures NoControl(Escape(s))
  {
    if s != "" { EscapedHasNoControl(s[1..]); }
  }

  lemma {:induction false} DigitsHaveNoControl(s: string)
    ensures NoControl(s[..DigitRun(s)])
  {
    if s != "" && IsDigit(s[0]) {
      DigitsHaveNoControl(s[1..]);
      assert s[..DigitRun(s)] == [s[0]] + s[1..][..DigitRun(s[1..])];
    }
  }

  lemma IntegerHasNoControl(s: string)
    requires IntegerLength(s).Some?
    ensures NoControl(s[..IntegerLength(s).value])
  {
    var sign := if s[0] == '-' then 1 else 0;
    var i := IntegerLength(s).value;
    DigitsHaveNoControl(s[sign..]);
    assert s[..i] == s[..sign] + s[sign..][..i - sign];
  }

  lemma FractionHasNoControl(s: string)
    requires FractionLength(s).Some?
    ensures NoControl(s[..FractionLength(s).value])
  {
    var f := FractionLength(s).value;
    if f > 0 {
      DigitsHaveNoControl(s[1..]);
      assert s[..f] == [s[0]] + s[1..][..f - 1];
    }
  }

  lemma ExponentHasNoControl(s: string)
    requires ExponentLength(s).Some?
    ensures NoControl(s[..ExponentLength(s).value])
  {
    hide DigitRun, NoControl;
    var e := ExponentLength(s).value;
    if e > 0 {
      var sign := if |s| > 1 && (s[1] == '+' || s[1] == '-') then 1 else 0;
      var front, digits := s[..1 + sign], s[1 + sign..];
      DigitsHaveNoControl(digits);
      assert e == 1 + sign + DigitRun(digits);
      assert s[..e] == front + digits[..DigitRun(digits)];
      assert NoControl(front) by { ExponentFront(s, sign); }
      NoControlJoin(front, digits[..DigitRun(digits)]);
    } else {
      assert s[..e] == "";
      assert NoControl("") by { NothingIsNoControl(); }
    }
  }

  lemma ExponentFront(s: string, sign: nat)
    requires s != "" && s[0] in {'e', 'E'} && sign <= 1
    requires sign == 1 ==> |s| > 1 && s[1] in {'+', '-'}
    ensures NoControl(s[..1 + sign])
  {
    assert s[..1 + sign] == if sign == 0 then [s[0]] else [s[0], s[1]];
  }

  lemma NoControlJoin(a: string, b: string)
    requires NoControl(a) && NoControl(b)
    ensures NoControl(a + b)
  {}

  lemma NothingIsNoControl()
    ensures NoControl("")
  {}

  lemma NumberHasNoControl(lexeme: string)
    requires IsNumber(lexeme)
    ensures NoControl(lexeme)
  {
    hide DigitRun, IntegerLength, FractionLength, ExponentLength;
    var i := IntegerLength(lexeme).value;
    var f := FractionLength(lexeme[i..]).value;
    var t := lexeme[i..][f..];
    IntegerHasNoControl(lexeme);
    FractionHasNoControl(lexeme[i..]);
    ExponentHasNoControl(t);
    assert t[..|t|] == t;
    assert lexeme == lexeme[..i] + lexeme[i..][..f] + t;
  }

  /** RFC 8259 section 7: printed JSON holds no raw control character, so no line break and no carriage return. */
  lemma {:induction false} PrintHasNoControl(v: Value)
    requires WellFormed(v)
    ensures NoControl(Print(v))
  {
    match v
    case Num(lexeme) => NumberHasNoControl(lexeme);
    case Str(text) => EscapedHasNoControl(text);
    case Arr(items) => ItemsHaveNoControl(items);
    case Obj(members) => MembersHaveNoControl(members);
    case _ =>
  }

  lemma {:induction false} ItemsHaveNoControl(items: Items)
    requires WellFormedItems(items)
    ensures NoControl(PrintItems(items))
  {
    if items.Item? {
      PrintHasNoControl(items.head);
      ItemsHaveNoControl(items.tail);
    }
  }

  lemma {:induction false} MembersHaveNoControl(members: Members)
    requires WellFormedMembers(members)
    ensures NoControl(PrintMembers(members))
  {
    if members.Member? {
      EscapedHasNoControl(members.key);
      PrintHasNoControl(members.value);
      MembersHaveNoControl(members.tail);
    }
  }
}
