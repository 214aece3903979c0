/** JSON (RFC 8259) as `serde_json` prints and reads it: compact output, sorted object keys, bounded nesting. */
module Json {
  import opened Wrappers
  import opened Text

  /** Numbers carry their lexeme. Object members are kept in strictly increasing key order, as in a `BTreeMap`. */
  datatype Value =
    | Null
    | Bool(b: bool)
    | Num(lexeme: string)
    | Str(text: string)
    | Arr(items: Items)
    | Obj(members: Members)

  datatype Items = NoItems | Item(head: Value, tail: Items)

  datatype Members = NoMembers | Member(key: string, value: Value, tail: Members)

  const RECURSION_LIMIT: nat := 128

  // ---- Object access

  function Get(members: Members, key: string): Option<Value> {
    match members
    case NoMembers => None
    case Member(k, v, tail) => if k == key then Some(v) else Get(tail, key)
  }

  function Field(v: Value, key: string): Option<Value> {
    if v.Obj? then Get(v.members, key) else None
  }

  /** `Map::insert`: replaces the value of an existing key, else takes the key's place in the order. */
  function Put(members: Members, key: string, value: Value): Members {
    match members
    case NoMembers => Member(key, value, NoMembers)
    case Member(k, v, tail) =>
      if k == key then Member(key, value, tail)
      else if StringLe(key, k) then Member(key, value, members)
      else Member(k, v, Put(tail, key, value))
  }

  lemma {:induction false} GetAfterPut(members: Members, key: string, value: Value, other: string)
    ensures Get(Put(members, key, value), other) == if other == key then Some(value) else Get(members, other)
  {
    if members.Member? { GetAfterPut(members.tail, key, value, other); }
  }

  // ---- Printing

  function HexDigit(n: nat): char
    requires n < 16
  {
    if n < 10 then (n + 48) as char else (n + 87) as char
  }

  function EscapeChar(c: char): string {
    var n := c as int;
    if c == '\"' then "\\\""
    else if c == '\\' then "\\\\"
    else if n == 0x08 then "\\b"
    else if n == 0x09 then "\\t"
    else if n == 0x0A then "\\n"
    else if n == 0x0C then "\\f"
    else if n == 0x0D then "\\r"
    else if n < 0x20 then "\\u00" + [HexDigit(n / 16), HexDigit(n % 16)]
    else [c]
  }

  function Escape(s: string): string {
    if s == "" then "" else EscapeChar(s[0]) + Escape(s[1..])
  }

  function Quote(s: string): string {
    "\"" + Escape(s) + "\""
  }

  function Print(v: Value): string {
    match v
    case Null => "null"
    case Bool(b) => if b then "true" else "false"
    case Num(lexeme) => lexeme
    case Str(text) => Quote(text)
    case Arr(items) => "[" + PrintItems(items) + "]"
    case Obj(members) => "{" + PrintMembers(members) + "}"
  }

  function PrintItems(items: Items): string {
    match items
    case NoItems => ""
    case Item(head, tail) => Print(head) + (if tail.NoItems? then "" else "," + PrintItems(tail))
  }

  function PrintMembers(members: Members): string {
    match members
    case NoMembers => ""
    case Member(key, value, tail) =>
      Quote(key) + ":" + Print(value) + (if tail.NoMembers? then "" else "," + PrintMembers(tail))
  }

  // ---- Reading

  predicate IsSpace(c: char) {
    c == ' ' || c == '\n' || c == '\t' || c == '\r'
  }

  function SkipSpace(s: string): (r: string)
    ensures |r| <= |s|
  {
    if s != "" && IsSpace(s[0]) then SkipSpace(s[1..]) else s
  }

  function DigitRun(s: string): (n: nat)
    ensures n <= |s|
  {
    if s != "" && IsDigit(s[0]) then 1 + DigitRun(s[1..]) else 0
  }

  /** The length of the integer part at the front; a leading zero stands alone. */
  function IntegerLength(s: string): (r: Option<nat>)
    ensures r.Some? ==> 0 < r.value <= |s|
  {
    var sign := if s != "" && s[0] == '-' then 1 else 0;
    var n := DigitRun(s[sign..]);
    if n == 0 || (n > 1 && s[sign] == '0') then None else Some(sign + n)
  }

  function FractionLength(s: string): (r: Option<nat>)
    ensures r.Some? ==> r.value <= |s|
  {
    if s == "" || s[0] != '.' then Some(0)
    else if DigitRun(s[1..]) == 0 then None
    else Some(1 + DigitRun(s[1..]))
  }

  function ExponentLength(s: string): (r: Option<nat>)
    ensures r.Some? ==> r.value <= |s|
  {
    if s == "" || (s[0] != 'e' && s[0] != 'E') then Some(0)
    else
      var sign := if |s| > 1 && (s[1] == '+' || s[1] == '-') then 1 else 0;
      if DigitRun(s[1 + sign..]) == 0 then None else Some(1 + sign + DigitRun(s[1 + sign..]))
  }

  function NumberLength(s: string): (r: Option<nat>)
    ensures r.Some? ==> 0 < r.value <= |s|
  {
    match IntegerLength(s)
    case None => None
    case Some(i) =>
      match FractionLength(s[i..])
      case None => None
      case Some(f) =>
        match ExponentLength(s[i..][f..])
        case None => None
        case Some(e) => Some(i + f + e)
  }

  function HexValue(c: char): (r: Option<nat>)
    ensures r.Some? ==> r.value < 16
  {
    if '0' <= c <= '9' then Some((c as int) - 48)
    else if 'a' <= c <= 'f' then Some((c as int) - 87)
    else if 'A' <= c <= 'F' then Some((c as int) - 55)
    else None
  }

  /** Four hexadecimal digits at the front. */
  function Hex4(s: string): (r: Option<nat>)
    ensures r.Some? ==> |s| >= 4 && r.value < 0x10000
  {
    if |s| < 4 then None
    else
      var a, b, c, d := HexValue(s[0]), HexValue(s[1]), HexValue(s[2]), HexValue(s[3]);
      if a.Some? && b.Some? && c.Some? && d.Some?
      then Some(a.value * 0x1000 + b.value * 0x100 + c.value * 0x10 + d.value)
      else None
  }

  /** What follows a backslash: the character meant and how much text it took. Surrogates must come in pairs. */
  function Unescape(s: string): (r: Option<(char, nat)>)
    ensures r.Some? ==> r.value.1 <= |s|
  {
    if s == "" then None
    else if s[0] == '\"' || s[0] == '\\' || s[0] == '/' then Some((s[0], 1))
    else if s[0] == 'b' then Some((0x08 as char, 1))
    else if s[0] == 'f' then Some((0x0C as char, 1))
    else if s[0] == 'n' then Some(('\n', 1))
    else if s[0] == 'r' then Some(('\r', 1))
    else if s[0] == 't' then Some(('\t', 1))
    else if s[0] == 'u' && Hex4(s[1..]).Some? then
      var high := Hex4(s[1..]).value;
      if high < 0xD800 || 0xE000 <= high then Some((high as char, 5))
      else if 0xDC00 <= high || |s| < 11 || s[5] != '\\' || s[6] != 'u' then None
      else
        match Hex4(s[7..])
        case Some(low) =>
          if 0xDC00 <= low < 0xE000 then Some(((0x10000 + (high - 0xD800) * 0x400 + (low - 0xDC00)) as char, 11)) else None
        case None => None
    else None
  }

  /** A string from after its opening quote, with what follows its closing quote. */
  function ParseString(s: string): (r: Option<(string, string)>)
    ensures r.Some? ==> |r.value.1| < |s|
  {
    if s == "" || (s[0] as int) < 0x20 then None
    else if s[0] == '\"' then Some(("", s[1..]))
    else if s[0] == '\\' then
      match Unescape(s[1..])
      case None => None
      case Some((c, n)) =>
        (match ParseString(s[1..][n..])
         case None => None
         case Some((text, rest)) => Some(([c] + text, rest)))
    else
      match ParseString(s[1..])
      case None => None
      case Some((text, rest)) => Some(([s[0]] + text, rest))
  }

  function ParseWord(s: string, word: string, v: Value): (r: Option<(Value, string)>)
    ensures r.Some? && word != "" ==> |r.value.1| < |s|
  {
    if word <= s then Some((v, s[|word|..])) else None
  }

  /** One value at the front of the text. `depth` is the nesting left; entering a container uses one up. */
  function ParseValue(s: string, depth: nat): (r: Option<(Value, string)>)
    ensures r.Some? ==> |r.value.1| < |s|
    decreases |s|, 0
  {
    var t := SkipSpace(s);
    if t == "" then None
    else if t[0] == 'n' then ParseWord(t, "null", Null)
    else if t[0] == 't' then ParseWord(t, "true", Bool(true))
    else if t[0] == 'f' then ParseWord(t, "false", Bool(false))
    else if t[0] == '\"' then
      match ParseString(t[1..])
      case None => None
      case Some((text, rest)) => Some((Str(text), rest))
    else if t[0] == '[' then
      if depth <= 1 then None
      else if SkipSpace(t[1..]) != "" && SkipSpace(t[1..])[0] == ']' then Some((Arr(NoItems), SkipSpace(t[1..])[1..]))
      else
        match ParseItems(t[1..], depth - 1)
        case None => None
        case Some((items, rest)) => Some((Arr(items), rest))
    else if t[0] == '{' then
      if depth <= 1 then None
      else if SkipSpace(t[1..]) != "" && SkipSpace(t[1..])[0] == '}' then Some((Obj(NoMembers), SkipSpace(t[1..])[1..]))
      else
        match ParseMembers(t[1..], depth - 1)
        case None => None
        case Some((members, rest)) => Some((Obj(members), rest))
    else if t[0] == '-' || IsDigit(t[0]) then
      match NumberLength(t)
      case None => None
      case Some(n) => Some((Num(t[..n]), t[n..]))
    else None
  }

  /** The values of a non-empty array up to its closing bracket. */
  function ParseItems(s: string, depth: nat): (r: Option<(Items, string)>)
    ensures r.Some? ==> |r.value.1| < |s|
    decreases |s|, 1
  {
    match ParseValue(s, depth)
    case None => None
    case Some((v, after)) =>
      var t := SkipSpace(after);
      if t == "" then None
      else if t[0] == ']' then Some((Item(v, NoItems), t[1..]))
      else if t[0] == ',' then
        match ParseItems(t[1..], depth)
        case None => None
        case Some((items, rest)) => Some((Item(v, items), rest))
      else None
  }

  /** The members of a non-empty object up to its closing brace; the last of equal keys wins. */
  function ParseMembers(s: string, depth: nat): (r: Option<(Members, string)>)
    ensures r.Some? ==> |r.value.1| < |s|
    decreases |s|, 1
  {
    var k := SkipSpace(s);
    if k == "" || k[0] != '\"' then None
    else
      match ParseString(k[1..])
      case None => None
      case Some((key, afterKey)) =>
        var c := SkipSpace(afterKey);
        if c == "" || c[0] != ':' then None
        else
          match ParseValue(c[1..], depth)
          case None => None
          case Some((v, after)) =>
            var t := SkipSpace(after);
            if t == "" then None
            else if t[0] == '}' then Some((Member(key, v, NoMembers), t[1..]))
            else if t[0] == ',' then
              match ParseMembers(t[1..], depth)
              case None => None
              case Some((members, rest)) => Some((if Get(members, key).Some? then members else Put(members, key, v), rest))
            else None
  }

  /** `serde_json::from_str` */
  function Parse(s: string): Option<Value> {
    match ParseValue(s, RECURSION_LIMIT)
    case Some((v, rest)) => if SkipSpace(rest) == "" then Some(v) else None
    case None => None
  }
}
