/** Rewriting the provider named in a rollout file's `session_meta` lines. */
module Rollout {
  import opened Wrappers
  import opened Text
  import opened Json
  import opened JsonRoundTrip

  const NEWLINE := '\n'
  const CARRIAGE_RETURN := '\r'

  // ---- Lines

  /** The length of the first line, its `\n` included. */
  function LineLength(s: string): (n: nat)
    ensures n <= |s|
    ensures s != "" ==> n > 0
  {
    if s == "" then 0 else if s[0] == NEWLINE then 1 else 1 + LineLength(s[1..])
  }

  /** `str::split_inclusive('\n')` */
  function SplitInclusive(s: string): seq<string> {
    if s == "" then [] else [s[..LineLength(s)]] + SplitInclusive(s[LineLength(s)..])
  }

  predicate EndsLine(segment: string) {
    segment != "" && segment[|segment| - 1] == NEWLINE
  }

  /** A segment without its line break. */
  function LineOf(segment: string): string {
    if EndsLine(segment) then segment[..|segment| - 1] else segment
  }

  predicate IsCarriageReturn(c: char) {
    c == CARRIAGE_RETURN
  }

  /** A line without its trailing carriage returns. */
  function JsonTextOf(line: string): string {
    TrimRight(IsCarriageReturn, line)
  }

  function CarriageReturns(line: string): string {
    line[|JsonTextOf(line)|..]
  }

  // ---- One line

  predicate IsSessionMeta(v: Value) {
    Field(v, "type") == Some(Str("session_meta")) && Field(v, "payload").Some? && Field(v, "payload").value.Obj?
  }

  function ProviderOf(v: Value): Option<Value>
    requires IsSessionMeta(v)
  {
    Field(Field(v, "payload").value, "model_provider")
  }

  function WithProvider(v: Value, target: string): Value
    requires IsSessionMeta(v)
  {
    var payload := Field(v, "payload").value.members;
    Obj(Put(v.members, "payload", Obj(Put(payload, "model_provider", Str(target)))))
  }

  /** The line is a session_meta record with an object payload that does not name `target`. */
  predicate NamesAnother(line: string, target: string) {
    var json := JsonTextOf(line);
    && Trim(json) != ""
    && Parse(json).Some?
    && IsSessionMeta(Parse(json).value)
    && ProviderOf(Parse(json).value) != Some(Str(target))
  }

  /** `patch_rollout_line_provider` */
  function PatchLine(line: string, target: string): Option<string> {
    var json := JsonTextOf(line);
    if Trim(json) == "" then None
    else
      match Parse(json)
      case None => None
      case Some(v) =>
        if !IsSessionMeta(v) || ProviderOf(v) == Some(Str(target)) then None
        else Some(Print(WithProvider(v, target)) + CarriageReturns(line))
  }

  function PatchSegment(segment: string, target: string): string {
    var line := LineOf(segment);
    match PatchLine(line, target)
    case Some(patched) => patched + segment[|line|..]
    case None => segment
  }

  lemma {:induction false} OnlyCarriageReturnsTrimmed(line: string)
    ensures line == JsonTextOf(line) + CarriageReturns(line)
    ensures forall c | c in CarriageReturns(line) :: c == CARRIAGE_RETURN
  {
    if line != "" && line[|line| - 1] == CARRIAGE_RETURN {
      var init := line[..|line| - 1];
      OnlyCarriageReturnsTrimmed(init);
      assert CarriageReturns(line) == CarriageReturns(init) + [line[|line| - 1]];
    }
  }

  lemma {:induction false} TrimRightAppend(s: string, tail: string)
    requires s == "" || s[|s| - 1] != CARRIAGE_RETURN
    requires forall c | c in tail :: c == CARRIAGE_RETURN
    ensures JsonTextOf(s + tail) == s
  {
    if tail == "" {
      assert s + tail == s;
    } else {
      var init := tail[..|tail| - 1];
      assert tail[|tail| - 1] in tail && forall c | c in init :: c in tail;
      TrimRightAppend(s, init);
      assert (s + tail)[..|s + tail| - 1] == s + init;
    }
  }

  lemma {:induction false} FieldsOfWellFormed(members: Members, key: string)
    requires WellFormedMembers(members) && Get(members, key).Some?
    ensures WellFormed(Get(members, key).value) && Depth(Get(members, key).value) <= DepthMembers(members)
  {
    if members.key != key { FieldsOfWellFormed(members.tail, key); }
  }

  /** Naming the provider keeps a record readable, and then it names the target. */
  lemma NamedProviderIsTarget(v: Value, target: string)
    requires IsSessionMeta(v) && WellFormed(v) && Depth(v) < RECURSION_LIMIT
    ensures var named := WithProvider(v, target);
            WellFormed(named) && Depth(named) < RECURSION_LIMIT && IsSessionMeta(named) && ProviderOf(named) == Some(Str(target))
  {
    var payload := Field(v, "payload").value;
    var named := Obj(Put(payload.members, "model_provider", Str(target)));
    FieldsOfWellFormed(v.members, "payload");
    PutKeepsOrder(payload.members, "model_provider", Str(target));
    PutKeepsOrder(v.members, "payload", named);
    GetAfterPut(v.members, "payload", named, "payload");
    GetAfterPut(v.members, "payload", named, "type");
    GetAfterPut(payload.members, "model_provider", Str(target), "model_provider");
  }

  /** A record's other fields, and its payload's other fields, are what they were. */
  lemma OtherFieldsKept(v: Value, target: string, key: string)
    requires IsSessionMeta(v)
    ensures var named := WithProvider(v, target);
            && (key != "payload" ==> Field(named, key) == Field(v, key))
            && Field(named, "payload").Some?
            && (key != "model_provider" ==>
                  Field(Field(named, "payload").value, key) == Field(Field(v, "payload").value, key))
  {
    var payload := Field(v, "payload").value;
    var named := Obj(Put(payload.members, "model_provider", Str(target)));
    GetAfterPut(v.members, "payload", named, key);
    GetAfterPut(v.members, "payload", named, "payload");
    GetAfterPut(payload.members, "model_provider", Str(target), key);
  }

  lemma ObjectIsNotBlank(v: Value)
    requires v.Obj?
    ensures Trim(Print(v)) == Print(v) && Print(v) != "" && Print(v)[|Print(v)| - 1] == '}'
  {
    TightIsTrimmed(IsWhitespace, Print(v));
  }

  /** A patched line is one line with the old carriage returns, reads as the record naming the target, and is done. */
  lemma PatchedLineIsDone(line: string, target: string)
    requires PatchLine(line, target).Some?
    ensures var patched := PatchLine(line, target).value;
            && CarriageReturns(patched) == CarriageReturns(line)
            && Parse(JsonTextOf(patched)) == Some(WithProvider(Parse(JsonTextOf(line)).value, target))
            && PatchLine(patched, target).None?
            && (NEWLINE !in line ==> NEWLINE !in patched)
            && patched != ""
  {
    hide Parse, Print;
    var v := Parse(JsonTextOf(line)).value;
    var named := WithProvider(v, target);
    ParsedIsWellFormed(JsonTextOf(line));
    NamedProviderIsTarget(v, target);
    PrintParseRoundTrip(named);
    PrintHasNoControl(named);
    ObjectIsNotBlank(named);
    OnlyCarriageReturnsTrimmed(line);
    TrimRightAppend(Print(named), CarriageReturns(line));
    assert NEWLINE !in Print(named);
  }

  lemma PatchesExactlyOtherProviders(line: string, target: string)
    ensures PatchLine(line, target).Some? <==> NamesAnother(line, target)
  {
    hide Parse, Print;
  }

  // ---- The whole file

  function PatchText(content: string, target: string): string {
    if content == "" then ""
    else
      var n := LineLength(content);
      PatchSegment(content[..n], target) + PatchText(content[n..], target)
  }

  predicate AnyNamesAnother(segments: seq<string>, target: string) {
    exists segment | segment in segments :: NamesAnother(LineOf(segment), target)
  }

  /** `patch_rollout_provider` */
  function PatchRollout(content: string, target: string): Option<string> {
    if AnyNamesAnother(SplitInclusive(content), target) then Some(PatchText(content, target)) else None
  }

  method PatchRolloutProvider(content: string, target: string) returns (r: Option<string>)
    ensures r == PatchRollout(content, target)
    ensures ContentPatched(content, r, target)
  {
    hide Parse, Print, ContentPatched, PatchLine, NamesAnother, SplitInclusive, PatchText, LineOf, PatchSegment, PatchSegments;
    var changed := false;
    var output := "";
    var segments := SplitInclusive(content);
    var i := 0;
    NoSegments(target);
    while i < |segments|
      invariant 0 <= i <= |segments|
      invariant changed <==> AnyNamesAnother(segments[..i], target)
      invariant output == PatchSegments(segments[..i], target)
    {
      var segment := segments[i];
      assert segments[..i + 1] == segments[..i] + [segment];
      PatchSegmentsAppend(segments[..i], segment, target);
      var line := LineOf(segment);
      PatchesExactlyOtherProviders(line, target);
      AnyNamesAnotherAppend(segments[..i], segment, target);
      SegmentOutput(output, segment, target);
      match PatchLine(line, target) {
        case Some(patched) =>
          output := output + patched + segment[|line|..];
          changed := true;
        case None =>
          output := output + segment;
      }
      i := i + 1;
    }
    assert segments[..|segments|] == segments;
    PatchTextIsSegments(content, target);
    r := if changed then Some(output) else None;
    PatchIsLiteral(content, target);
  }

  lemma AnyNamesAnotherAppend(segments: seq<string>, segment: string, target: string)
    ensures AnyNamesAnother(segments + [segment], target) <==>
            AnyNamesAnother(segments, target) || NamesAnother(LineOf(segment), target)
  {
    hide NamesAnother, LineOf;
    var all := segments + [segment];
    assert segment in all && forall s | s in segments :: s in all;
  }

  lemma SegmentOutput(output: string, segment: string, target: string)
    ensures |LineOf(segment)| <= |segment|
    ensures match PatchLine(LineOf(segment), target)
            case Some(patched) =>
              output + patched + segment[|LineOf(segment)|..] == output + PatchSegment(segment, target)
            case None => PatchSegment(segment, target) == segment
  {
    hide PatchLine;
  }

  lemma NoSegments(target: string)
    ensures PatchSegments([], target) == "" && !AnyNamesAnother([], target)
  {}

  function PatchSegments(segments: seq<string>, target: string): string {
    if segments == [] then "" else PatchSegment(segments[0], target) + PatchSegments(segments[1..], target)
  }

  lemma {:induction false} PatchSegmentsAppend(segments: seq<string>, segment: string, target: string)
    ensures PatchSegments(segments + [segment], target) == PatchSegments(segments, target) + PatchSegment(segment, target)
  {
    hide PatchSegment;
    if segments == [] {
      assert ([] + [segment])[1..] == [];
    } else {
      PatchSegmentsAppend(segments[1..], segment, target);
      assert (segments + [segment])[1..] == segments[1..] + [segment];
    }
  }

  lemma {:induction false} PatchTextIsSegments(content: string, target: string)
    ensures PatchText(content, target) == PatchSegments(SplitInclusive(content), target)
  {
    hide PatchSegment;
    if content != "" {
      PatchTextIsSegments(content[LineLength(content)..], target);
    }
  }

  // ---- Line by line

  /** What `split_inclusive` cuts: non-empty, with a line break at the end at most. */
  predicate IsSegment(s: string) {
    s != "" && NEWLINE !in LineOf(s)
  }

  lemma {:induction false} LineLengthIsFirstBreak(s: string)
    requires s != ""
    ensures IsSegment(s[..LineLength(s)])
    ensures EndsLine(s[..LineLength(s)]) || LineLength(s) == |s|
  {
    if s[0] != NEWLINE && s[1..] != "" {
      LineLengthIsFirstBreak(s[1..]);
      var n := LineLength(s[1..]);
      assert s[..n + 1] == [s[0]] + s[1..][..n];
      assert LineOf(s[..n + 1]) == [s[0]] + LineOf(s[1..][..n]);
    }
  }

  lemma {:induction false} LineLengthOf(segment: string, rest: string)
    requires IsSegment(segment) && (EndsLine(segment) || rest == "")
    ensures LineLength(segment + rest) == |segment|
  {
    assert (segment + rest)[1..] == segment[1..] + rest;
    if segment[0] != NEWLINE {
      assert |segment| == 1 || LineOf(segment) == [segment[0]] + LineOf(segment[1..]);
      if |segment| > 1 { LineLengthOf(segment[1..], rest); } else { assert segment[1..] + rest == ""; }
    } else {
      assert |segment| == 1;
    }
  }

  lemma SplitCons(segment: string, rest: string)
    requires IsSegment(segment) && (EndsLine(segment) || rest == "")
    ensures SplitInclusive(segment + rest) == [segment] + SplitInclusive(rest)
  {
    LineLengthOf(segment, rest);
    assert (segment + rest)[..|segment|] == segment && (segment + rest)[|segment|..] == rest;
  }

  lemma PatchedSegment(segment: string, target: string)
    requires IsSegment(segment)
    ensures var patched := PatchSegment(segment, target);
            && IsSegment(patched)
            && (EndsLine(patched) <==> EndsLine(segment))
            && !NamesAnother(LineOf(patched), target)
            && (!NamesAnother(LineOf(segment), target) ==> patched == segment)
            && CarriageReturns(LineOf(patched)) == CarriageReturns(LineOf(segment))
  {
    hide Parse, Print, JsonTextOf, NamesAnother, PatchLine;
    var line := LineOf(segment);
    PatchesExactlyOtherProviders(line, target);
    if PatchLine(line, target).Some? {
      var patched := PatchLine(line, target).value;
      PatchedLineIsDone(line, target);
      PatchesExactlyOtherProviders(patched, target);
      assert LineOf(PatchSegment(segment, target)) == patched;
      assert CarriageReturns(patched) == CarriageReturns(line);
    }
  }

  /** The `i`-th segment of a file and of its rewriting. */
  ghost predicate SameButProvider(before: string, after: string, target: string) {
    && after == PatchSegment(before, target)
    && (EndsLine(after) <==> EndsLine(before))
    && CarriageReturns(LineOf(after)) == CarriageReturns(LineOf(before))
    && (!NamesAnother(LineOf(before), target) ==> after == before)
    && !NamesAnother(LineOf(after), target)
  }

  /** Patching is line-local: same number of lines, same terminators and carriage returns, every line that does not
      name another provider byte for byte as it was, and no line left that does. */
  lemma {:induction false} PatchIsLineLocal(content: string, target: string)
    ensures var before, after := SplitInclusive(content), SplitInclusive(PatchText(content, target));
            |after| == |before| && forall i | 0 <= i < |before| :: SameButProvider(before[i], after[i], target)
  {
    hide PatchSegment, NamesAnother, JsonTextOf, IsSegment, LineOf;
    if content != "" {
      var n := LineLength(content);
      var segment := content[..n];
      var rest := PatchText(content[n..], target);
      LineLengthIsFirstBreak(content);
      PatchedSegment(segment, target);
      PatchIsLineLocal(content[n..], target);
      assert !EndsLine(segment) ==> content[n..] == "" && rest == "";
      SplitCons(PatchSegment(segment, target), rest);
    }
  }

  /** Nothing is returned exactly when no line names another provider, and patching a patched file returns nothing. */
  lemma PatchReachesFixpoint(content: string, target: string)
    ensures PatchRollout(content, target).None? <==>
            forall segment | segment in SplitInclusive(content) :: !NamesAnother(LineOf(segment), target)
    ensures PatchRollout(content, target).Some? ==>
              PatchRollout(PatchRollout(content, target).value, target).None? && PatchRollout(content, target).value != content
  {
    hide PatchSegment, NamesAnother, JsonTextOf, PatchText;
    PatchIsLineLocal(content, target);
    var after := SplitInclusive(PatchText(content, target));
    forall segment | segment in after ensures !NamesAnother(LineOf(segment), target) {
      var i :| 0 <= i < |after| && after[i] == segment;
      assert SameButProvider(SplitInclusive(content)[i], after[i], target);
    }
  }

  // ---- The patch in terms of what the lines say

  /** Cutting behind each line break loses nothing and leaves no break inside a segment. */
  lemma {:induction false} SplitCutsAtBreaks(content: string)
    ensures Joined(SplitInclusive(content)) == content
    ensures var segments := SplitInclusive(content);
            forall i | 0 <= i < |segments| :: OneLine(segments[i]) && (i < |segments| - 1 ==> EndsLine(segments[i]))
  {
    hide LineLength, OneLine;
    if content != "" {
      var n := LineLength(content);
      LineLengthIsFirstBreak(content);
      FirstSegment(content[..n]);
      SplitCutsAtBreaks(content[n..]);
      assert content == content[..n] + content[n..];
    }
  }

  /** Not empty, and no line break but at the end. */
  ghost predicate OneLine(segment: string) {
    segment != "" && forall k | 0 <= k < |segment| - 1 :: segment[k] != '\n'
  }

  lemma FirstSegment(segment: string)
    requires IsSegment(segment)
    ensures OneLine(segment)
  {
    forall k | 0 <= k < |segment| - 1 ensures segment[k] != '\n' {
      assert LineOf(segment)[k] == segment[k] && LineOf(segment)[k] in LineOf(segment);
    }
  }

  function Joined(segments: seq<string>): string {
    if segments == [] then "" else segments[0] + Joined(segments[1..])
  }

  /** The first `n` characters are the line without its trailing carriage returns. */
  ghost predicate JsonEndsAt(line: string, n: nat) {
    && n <= |line|
    && (forall i | n <= i < |line| :: line[i] == '\r')
    && (n > 0 ==> line[n - 1] != '\r')
  }

  /** The line reads as a session_meta record whose payload, an object, does not name the target. */
  ghost predicate MetaOfOther(line: string, n: nat, record: Members, payload: Members, target: string) {
    && JsonEndsAt(line, n)
    && Parse(line[..n]) == Some(Obj(record))
    && Get(record, "type") == Some(Str("session_meta"))
    && Get(record, "payload") == Some(Obj(payload))
    && Get(payload, "model_provider") != Some(Str(target))
  }

  ghost predicate NamesOtherProvider(line: string, target: string) {
    exists n: nat, record, payload :: MetaOfOther(line, n, record, payload, target)
  }

  /** The same record, but its payload names the target. */
  ghost predicate Retargeted(record: Members, payload: Members, r: Members, p: Members, target: string) {
    && (forall key :: Get(r, key) == if key == "payload" then Some(Obj(p)) else Get(record, key))
    && (forall key :: Get(p, key) == if key == "model_provider" then Some(Str(target)) else Get(payload, key))
  }

  /** The new line reads as the old line's record naming the target, and ends in the same carriage returns. */
  ghost predicate LineRetargeted(before: string, after: string, target: string) {
    exists n: nat, record, payload, m: nat, r, p ::
      && MetaOfOther(before, n, record, payload, target)
      && JsonEndsAt(after, m) && Parse(after[..m]) == Some(Obj(r)) && after[m..] == before[n..]
      && Retargeted(record, payload, r, p, target)
  }

  /** One segment of a patched file: untouched unless it named another provider. */
  ghost predicate SegmentPatched(before: string, after: string, target: string) {
    && (EndsLine(after) <==> EndsLine(before))
    && if NamesOtherProvider(LineOf(before), target) then LineRetargeted(LineOf(before), LineOf(after), target)
       else after == before
  }

  lemma JsonEnd(line: string)
    ensures |JsonTextOf(line)| <= |line|
    ensures JsonEndsAt(line, |JsonTextOf(line)|) && line[..|JsonTextOf(line)|] == JsonTextOf(line)
    ensures forall n | JsonEndsAt(line, n) :: n == |JsonTextOf(line)|
  {
    hide TrimRight;
    OnlyCarriageReturnsTrimmed(line);
    TrimRightKeepsHead(IsCarriageReturn, line);
    var n := |JsonTextOf(line)|;
    forall i | n <= i < |line| ensures line[i] == '\r' {
      assert line[i] == CarriageReturns(line)[i - n] && CarriageReturns(line)[i - n] in CarriageReturns(line);
    }
  }

  lemma {:induction false} SkipSpaceStays(s: string)
    ensures SkipSpace(s) != "" ==> SkipSpace(s)[0] in s
  {
    if s != "" && IsSpace(s[0]) {
      SkipSpaceStays(s[1..]);
      assert s == [s[0]] + s[1..];
    }
  }

  lemma BlankIsNoJson(s: string)
    requires Trim(s) == ""
    ensures Parse(s).None?
  {
    hide ParseItems, ParseMembers, ParseString, NumberLength;
    BlankIsAllWhitespace(s);
    SkipSpaceStays(s);
    assert ParseValue(s, RECURSION_LIMIT).None?;
  }

  lemma NamesAnotherIsLiteral(line: string, target: string)
    ensures NamesAnother(line, target) <==> NamesOtherProvider(line, target)
  {
    hide Parse, JsonTextOf, Trim, JsonEndsAt;
    JsonEnd(line);
    var json := JsonTextOf(line);
    if NamesAnother(line, target) {
      var v := Parse(json).value;
      assert MetaOfOther(line, |json|, v.members, Field(v, "payload").value.members, target);
    }
    if n: nat, record, payload :| MetaOfOther(line, n, record, payload, target) {
      assert n == |json| && line[..n] == json;
      if Trim(json) == "" { BlankIsNoJson(json); }
    }
  }

  /** A patched line reads as the old record naming the target. */
  lemma PatchedLineIsRetargeted(line: string, target: string)
    requires PatchLine(line, target).Some?
    ensures LineRetargeted(line, PatchLine(line, target).value, target)
  {
    hide Parse, Print, JsonTextOf, JsonEndsAt, Trim;
    var patched, v := PatchLine(line, target).value, Parse(JsonTextOf(line)).value;
    var named := WithProvider(v, target);
    var payload := Field(v, "payload").value.members;
    var p := Put(payload, "model_provider", Str(target));
    PatchedLineIsDone(line, target);
    JsonEnd(line);
    JsonEnd(patched);
    assert MetaOfOther(line, |JsonTextOf(line)|, v.members, payload, target);
    forall key ensures Get(named.members, key) == if key == "payload" then Some(Obj(p)) else Get(v.members, key) {
      GetAfterPut(v.members, "payload", Obj(p), key);
    }
    forall key ensures Get(p, key) == if key == "model_provider" then Some(Str(target)) else Get(payload, key) {
      GetAfterPut(payload, "model_provider", Str(target), key);
    }
    assert Retargeted(v.members, payload, named.members, p, target);
    assert patched[|JsonTextOf(patched)|..] == line[|JsonTextOf(line)|..];
  }

  lemma SegmentIsPatched(segment: string, target: string)
    requires IsSegment(segment)
    ensures SegmentPatched(segment, PatchSegment(segment, target), target)
  {
    hide PatchLine, NamesAnother, NamesOtherProvider, LineRetargeted, JsonTextOf;
    var line := LineOf(segment);
    PatchedSegment(segment, target);
    NamesAnotherIsLiteral(line, target);
    PatchesExactlyOtherProviders(line, target);
    if PatchLine(line, target).Some? {
      PatchedLineIsRetargeted(line, target);
      var patched := PatchLine(line, target).value;
      assert LineOf(patched + segment[|line|..]) == patched;
    }
  }

  /** Nothing is returned if no line names another provider; otherwise every such line is retargeted and every other
      segment stays. */
  ghost predicate ContentPatched(content: string, r: Option<string>, target: string) {
    var before := SplitInclusive(content);
    && (r.None? <==> forall segment | segment in before :: !NamesOtherProvider(LineOf(segment), target))
    && (r.Some? ==>
          && |SplitInclusive(r.value)| == |before|
          && forall i | 0 <= i < |before| :: SegmentPatched(before[i], SplitInclusive(r.value)[i], target))
  }

  lemma PatchIsLiteral(content: string, target: string)
    ensures ContentPatched(content, PatchRollout(content, target), target)
  {
    hide NamesAnother, NamesOtherProvider, SegmentPatched, PatchSegment, JsonTextOf, IsSegment, LineOf, SplitInclusive, PatchText;
    var before, after := SplitInclusive(content), SplitInclusive(PatchText(content, target));
    PatchReachesFixpoint(content, target);
    PatchIsLineLocal(content, target);
    SegmentsAreSegments(content);
    forall i | 0 <= i < |before|
      ensures SegmentPatched(before[i], after[i], target)
    {
      assert SameButProvider(before[i], after[i], target);
      SegmentIsPatched(before[i], target);
    }
    forall segment | segment in before ensures NamesAnother(LineOf(segment), target) <==> NamesOtherProvider(LineOf(segment), target) {
      NamesAnotherIsLiteral(LineOf(segment), target);
    }
  }

  lemma {:induction false} SegmentsAreSegments(content: string)
    ensures forall segment | segment in SplitInclusive(content) :: IsSegment(segment)
  {
    if content != "" {
      LineLengthIsFirstBreak(content);
      SegmentsAreSegments(content[LineLength(content)..]);
    }
  }
}
