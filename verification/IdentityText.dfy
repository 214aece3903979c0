/** Storage ids and what is parsed from them, spelled out character by character. */
module IdentityText {
  import opened Wrappers
  import opened Text
  import opened AccountIdentity

  function Join(pieces: seq<string>, separator: string): string {
    if pieces == [] then ""
    else if |pieces| == 1 then pieces[0]
    else pieces[0] + separator + Join(pieces[1..], separator)
  }

  /** `r` is `s` without the whitespace at its ends. */
  ghost predicate IsTrimmed(s: string, r: string) {
    && (r != "" ==> !IsWhitespace(r[0]) && !IsWhitespace(r[|r| - 1]))
    && exists at: nat :: CoreAt(IsWhitespace, s, r, at)
  }

  ghost predicate IsBlank(value: Option<string>) {
    value.None? || forall c | c in value.value :: IsWhitespace(c)
  }

  /** No two colons in a row, nor one at the end if a separator follows. */
  ghost predicate IsPiece(piece: string, last: bool) {
    && !HasSeparator(piece)
    && (!last && piece != "" ==> piece[|piece| - 1] != ':')
  }

  ghost predicate ArePieces(pieces: seq<string>) {
    pieces != [] && forall k | 0 <= k < |pieces| :: IsPiece(pieces[k], k == |pieces| - 1)
  }

  /** `r` is `s` with every "::", from the left, made "_". */
  ghost predicate IsReplaced(s: string, r: string) {
    exists pieces ::
      && ArePieces(pieces)
      && s == Join(pieces, "::") && r == Join(pieces, "_")
  }

  /** A part of an id: missing if blank, else trimmed and rid of separators. */
  ghost predicate IsPart(value: Option<string>, part: Option<string>) {
    if IsBlank(value) then part == None
    else part.Some? && exists raw :: raw != "" && IsTrimmed(value.value, raw) && IsReplaced(raw, part.value)
  }

  /** The subject, then behind "::" the account id, the workspace unless it is the account id, and the tags, joined by
      bars. */
  function Spelled(base: string, c: Option<string>, w: Option<string>, t: Option<string>): string {
    base
    + (if c.None? && w.None? && t.None? then "" else "::")
    + (if c.Some? then "cgpt=" + c.value else "")
    + (if c.Some? && w.Some? && w != c then "|" else "")
    + (if w.Some? && w != c then "ws=" + w.value else "")
    + (if t.Some? && (c.Some? || w.Some?) then "|" else "")
    + (if t.Some? then t.value else "")
  }

  ghost predicate IsStorageId(
      id: string, subject: string, chatgpt: Option<string>, workspace: Option<string>, tags: Option<string>)
  {
    exists base, c, w, t ::
      && IsTrimmed(subject, base) && IsPart(chatgpt, c) && IsPart(workspace, w) && IsPart(tags, t)
      && id == Spelled(base, c, w, t)
  }

  lemma TrimIsTrimmed(s: string)
    ensures IsTrimmed(s, Trim(s))
  {
    var at := TrimKeepsCore(IsWhitespace, s);
  }

  lemma BlankIsEmptied(value: Option<string>)
    ensures NonEmpty(value).None? <==> IsBlank(value)
    ensures NonEmpty(value).Some? ==> NonEmpty(value).value != "" && IsTrimmed(value.value, NonEmpty(value).value)
  {
    hide Trim, IsTrimmed;
    if value.Some? {
      BlankIsAllWhitespace(value.value);
      TrimIsTrimmed(value.value);
    }
  }

  lemma {:induction false} ReplacedPieces(s: string) returns (pieces: seq<string>)
    ensures ArePieces(pieces)
    ensures s == Join(pieces, "::") && ReplaceSeparators(s) == Join(pieces, "_")
    decreases |s|
  {
    hide ArePieces, Join;
    if s == "" {
      pieces := [""];
      NoPieces();
    } else if |s| >= 2 && s[0] == ':' && s[1] == ':' {
      var rest := ReplacedPieces(s[2..]);
      pieces := [""] + rest;
      EmptyPiece(rest);
      assert s == "::" + s[2..];
    } else {
      var rest := ReplacedPieces(s[1..]);
      pieces := LongerPiece(s, rest);
    }
  }

  lemma NoPieces()
    ensures ArePieces([""]) && Join([""], "::") == "" && Join([""], "_") == ""
  {}

  lemma EmptyPiece(rest: seq<string>)
    requires ArePieces(rest)
    ensures ArePieces([""] + rest)
    ensures Join([""] + rest, "::") == "::" + Join(rest, "::") && Join([""] + rest, "_") == "_" + Join(rest, "_")
  {
    var pieces := [""] + rest;
    assert pieces[1..] == rest;
    assert forall k | 1 <= k < |pieces| :: pieces[k] == rest[k - 1];
  }

  lemma LongerPiece(s: string, rest: seq<string>) returns (pieces: seq<string>)
    requires s != "" && !(|s| >= 2 && s[0] == ':' && s[1] == ':')
    requires ArePieces(rest) && s[1..] == Join(rest, "::")
    ensures ArePieces(pieces) && s == Join(pieces, "::") && [s[0]] + Join(rest, "_") == Join(pieces, "_")
  {
    hide IsPiece, Join;
    FirstPieceGrows(s, rest);
    pieces := [[s[0]] + rest[0]] + rest[1..];
    JoinGrows([s[0]], rest, "::");
    JoinGrows([s[0]], rest, "_");
    assert s == [s[0]] + s[1..];
    forall k | 0 <= k < |pieces| ensures IsPiece(pieces[k], k == |pieces| - 1) {
      if k > 0 { assert pieces[k] == rest[k]; }
    }
  }

  lemma JoinGrows(front: string, rest: seq<string>, separator: string)
    requires rest != []
    ensures Join([front + rest[0]] + rest[1..], separator) == front + Join(rest, separator)
  {
    var pieces := [front + rest[0]] + rest[1..];
    assert pieces[1..] == rest[1..];
    if |rest| > 1 {
      assert front + rest[0] + separator + Join(rest[1..], separator) ==
             front + (rest[0] + separator + Join(rest[1..], separator));
    }
  }

  lemma FirstPieceGrows(s: string, rest: seq<string>)
    requires s != "" && !(|s| >= 2 && s[0] == ':' && s[1] == ':')
    requires rest != [] && s[1..] == Join(rest, "::") && IsPiece(rest[0], |rest| == 1)
    ensures IsPiece([s[0]] + rest[0], |rest| == 1)
  {
    var piece := [s[0]] + rest[0];
    if rest[0] != "" { assert rest[0][0] == s[1]; }
    if rest[0] == "" && |rest| > 1 { assert s[1..][0] == ':'; }
    assert piece[1..] == rest[0];
    ConsHasNoSeparator(piece);
  }

  lemma NormalizedIsPart(value: Option<string>)
    ensures IsPart(value, NormalizeIdPart(value))
  {
    hide ReplaceSeparators, IsTrimmed, NonEmpty;
    BlankIsEmptied(value);
    if NonEmpty(value).Some? {
      var raw := NonEmpty(value).value;
      var pieces := ReplacedPieces(raw);
      assert IsReplaced(raw, ReplaceSeparators(raw));
    }
  }

  lemma BuiltIsStorageId(subject: string, chatgpt: Option<string>, workspace: Option<string>, tags: Option<string>)
    ensures IsStorageId(BuildAccountStorageId(subject, chatgpt, workspace, tags), subject, chatgpt, workspace, tags)
  {
    hide NormalizeIdPart, IsPart, IsTrimmed, Trim, Spelled, BuildAccountStorageId;
    TrimIsTrimmed(subject);
    NormalizedIsPart(chatgpt);
    NormalizedIsPart(workspace);
    NormalizedIsPart(tags);
    BuiltText(subject, chatgpt, workspace, tags);
  }

  lemma BuiltText(subject: string, chatgpt: Option<string>, workspace: Option<string>, tags: Option<string>)
    ensures BuildAccountStorageId(subject, chatgpt, workspace, tags) ==
            Spelled(Trim(subject), NormalizeIdPart(chatgpt), NormalizeIdPart(workspace), NormalizeIdPart(tags))
  {
    hide NormalizeIdPart, Trim, Spelled;
    var base := Trim(subject);
    var c, w, t := NormalizeIdPart(chatgpt), NormalizeIdPart(workspace), NormalizeIdPart(tags);
    SpelledText(base, c, w, t);
    if c.Some? && w.Some? && c != w {
      HintText(c.value, w.value);
    }
  }

  lemma HintText(c: string, w: string)
    ensures CHATGPT_MARKER + c + "|" + WORKSPACE_MARKER + w == "cgpt=" + c + "|" + ("ws=" + w)
  {}

  lemma SpelledText(base: string, c: Option<string>, w: Option<string>, t: Option<string>)
    ensures var hint :=
              if c.Some? && w.Some? && c != w then "cgpt=" + c.value + "|" + ("ws=" + w.value)
              else if c.Some? then "cgpt=" + c.value else if w.Some? then "ws=" + w.value else "";
            Spelled(base, c, w, t) ==
            if c.None? && w.None? then (if t.None? then base else base + "::" + t.value)
            else if t.None? then base + "::" + hint else base + "::" + hint + "|" + t.value
  {
    var one := if c.Some? then "cgpt=" + c.value else "";
    var bar := if c.Some? && w.Some? && w != c then "|" else "";
    var two := if w.Some? && w != c then "ws=" + w.value else "";
    var last := if t.Some? then t.value else "";
    var separator := if c.None? && w.None? && t.None? then "" else "::";
    var gap := if t.Some? && (c.Some? || w.Some?) then "|" else "";
    Regroup(base, separator, one, bar, two, gap, last);
  }

  lemma Regroup(base: string, separator: string, one: string, bar: string, two: string, gap: string, last: string)
    ensures base + separator + one + bar + two + gap + last == base + separator + (one + bar + two) + gap + last
    ensures one + "" + "" == one && "" + "" + two == two
    ensures base + separator + "" == base + separator && base + "" == base
    ensures base + separator + (one + bar + two) + "" + "" == base + separator + (one + bar + two)
  {
    assert one + bar + two == one + (bar + two);
  }

  // ---- The parser

  /** What follows the last "::", or everything if there is none. */
  ghost predicate IsAfterLast(raw: string, scoped: string) {
    || (!HasSeparator(raw) && scoped == raw)
    || exists i :: SeparatorAt(raw, i) && scoped == raw[i + 2..] && forall j | i < j :: !SeparatorAt(raw, j)
  }

  ghost predicate SeparatorAt(s: string, i: int) {
    0 <= i < |s| - 1 && s[i] == ':' && s[i + 1] == ':'
  }

  /** The segment, trimmed, is the marker and a value that is not blank. */
  ghost predicate Carries(segment: string, marker: string, value: string) {
    && value != ""
    && exists t :: IsTrimmed(segment, t) && marker <= t && IsTrimmed(t[|marker|..], value)
  }

  /** The first of the segments between bars that carries the marker decides; if none does, the whole id stands for
      itself unless it looks like a scoped or imported one. */
  ghost predicate SegmentsRead(raw: string, segments: seq<string>, marker: string, r: Option<string>) {
    || (exists k | 0 <= k < |segments| ::
          && r.Some? && Carries(segments[k], marker, r.value)
          && forall j, v | 0 <= j < k :: !Carries(segments[j], marker, v))
    || (&& (forall k, v | 0 <= k < |segments| :: !Carries(segments[k], marker, v))
        && r == if HasSeparator(raw) || '|' in raw || '=' in raw || "import-sub-" <= raw then None else Some(raw))
  }

  /** What `normalize_scoped_identity_value` answers. */
  ghost predicate IsReadAs(value: Option<string>, marker: string, r: Option<string>) {
    if IsBlank(value) then r == None
    else exists raw, scoped, segments ::
      && raw != "" && IsTrimmed(value.value, raw) && IsAfterLast(raw, scoped)
      && segments != [] && Join(segments, "|") == scoped && (forall k | 0 <= k < |segments| :: '|' !in segments[k])
      && SegmentsRead(raw, segments, marker, r)
  }

  lemma {:induction false} LastSeparator(s: string) returns (i: int)
    requires AfterLastSeparator(s).Some?
    ensures SeparatorAt(s, i) && AfterLastSeparator(s) == Some(s[i + 2..])
    ensures forall j | i < j :: !SeparatorAt(s, j)
  {
    if AfterLastSeparator(s[1..]).Some? {
      var k := LastSeparator(s[1..]);
      i := k + 1;
      forall j | i < j ensures !SeparatorAt(s, j) {
        assert !SeparatorAt(s[1..], j - 1);
      }
    } else {
      i := 0;
      NoSeparatorNoSplit(s[1..]);
      forall j | i < j ensures !SeparatorAt(s, j) {
        LaterSeparator(s, j);
      }
    }
  }

  lemma LaterSeparator(s: string, j: int)
    requires j > 0
    ensures SeparatorAt(s, j) ==> HasSeparator(s[1..])
  {
    if SeparatorAt(s, j) { assert s[1..][j - 1] == ':' && s[1..][j] == ':'; }
  }

  lemma SplitIsAfterLast(raw: string)
    ensures IsAfterLast(raw, AfterLastSeparator(raw).GetOr(raw))
  {
    hide AfterLastSeparator;
    NoSeparatorNoSplit(raw);
    if AfterLastSeparator(raw).Some? {
      var i := LastSeparator(raw);
    }
  }

  lemma {:induction false} BarsJoin(s: string)
    ensures Join(SplitBars(s), "|") == s
  {
    if s != "" {
      var rest := SplitBars(s[1..]);
      BarsJoin(s[1..]);
      if s[0] == '|' {
        assert ([""] + rest)[1..] == rest;
      } else {
        JoinGrows([s[0]], rest, "|");
      }
      assert s == [s[0]] + s[1..];
    }
  }

  lemma OnlyOneTrimmed(s: string, r: string)
    requires IsTrimmed(s, r) && r != ""
    ensures Trim(s) == r
  {
    var at: nat :| CoreAt(IsWhitespace, s, r, at);
    TrimIsCore(IsWhitespace, s, r, at);
  }

  lemma MarkedCarries(segment: string, marker: string)
    requires marker != ""
    ensures MarkedValue(segment, marker).Some? ==> Carries(segment, marker, MarkedValue(segment, marker).value)
    ensures MarkedValue(segment, marker).None? ==> forall v :: !Carries(segment, marker, v)
  {
    hide Trim, IsTrimmed;
    var trimmed := Trim(segment);
    TrimIsTrimmed(segment);
    if marker <= trimmed { TrimIsTrimmed(trimmed[|marker|..]); }
    forall v | Carries(segment, marker, v) ensures MarkedValue(segment, marker) == Some(v) {
      var t :| IsTrimmed(segment, t) && marker <= t && IsTrimmed(t[|marker|..], v);
      OnlyOneTrimmed(segment, t);
      OnlyOneTrimmed(t[|marker|..], v);
    }
  }

  lemma {:induction false} FirstMarkedCarries(segments: seq<string>, marker: string)
    requires marker != ""
    ensures var r := FirstMarked(segments, marker);
            r.Some? ==> exists k | 0 <= k < |segments| ::
              Carries(segments[k], marker, r.value) && forall j, v | 0 <= j < k :: !Carries(segments[j], marker, v)
    ensures FirstMarked(segments, marker).None? ==> forall k, v | 0 <= k < |segments| :: !Carries(segments[k], marker, v)
  {
    hide MarkedValue, Carries;
    if segments != [] {
      MarkedCarries(segments[0], marker);
      FirstMarkedCarries(segments[1..], marker);
      var r := FirstMarked(segments, marker);
      if r.Some? && MarkedValue(segments[0], marker).None? {
        var k :| 0 <= k < |segments[1..]| && Carries(segments[1..][k], marker, r.value)
                 && forall j, v | 0 <= j < k :: !Carries(segments[1..][j], marker, v);
        forall j, v | 0 <= j < k + 1 ensures !Carries(segments[j], marker, v) {
          if j > 0 { assert segments[j] == segments[1..][j - 1]; }
        }
        assert segments[k + 1] == segments[1..][k];
      }
      if r.None? {
        forall k, v | 0 <= k < |segments| ensures !Carries(segments[k], marker, v) {
          if k > 0 { assert segments[k] == segments[1..][k - 1]; }
        }
      }
    }
  }

  lemma ParserReads(value: Option<string>, marker: string)
    requires marker != ""
    ensures IsReadAs(value, marker, NormalizeScopedIdentityValue(value, marker))
  {
    hide NonEmpty, AfterLastSeparator, SplitBars, FirstMarked, Carries, IsTrimmed, IsAfterLast, Join;
    BlankIsEmptied(value);
    if NonEmpty(value).Some? {
      var raw := NonEmpty(value).value;
      var scoped := AfterLastSeparator(raw).GetOr(raw);
      var segments := SplitBars(scoped);
      SplitIsAfterLast(raw);
      NoSeparatorNoSplit(raw);
      BarsJoin(scoped);
      SegmentsHaveNoBar(scoped);
      FirstMarkedCarries(segments, marker);
      assert SegmentsRead(raw, segments, marker, NormalizeScopedIdentityValue(value, marker));
    }
  }

  /** The account id is read from under "cgpt=", the workspace from under "ws=". */
  lemma MarkersRead(value: Option<string>)
    ensures IsReadAs(value, "cgpt=", NormalizeChatgptAccountId(value))
    ensures IsReadAs(value, "ws=", NormalizeWorkspaceId(value))
  {
    ParserReads(value, CHATGPT_MARKER);
    ParserReads(value, WORKSPACE_MARKER);
  }
}
