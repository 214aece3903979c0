/** Composite account storage identifiers: the printer and the parser that reads scopes back out of them. */
module AccountIdentity {
  import opened Wrappers
  import opened Text

  const CHATGPT_MARKER := "cgpt="
  const WORKSPACE_MARKER := "ws="

  function NonEmpty(value: Option<string>): Option<string> {
    match value
    case Some(v) => if Trim(v) == "" then None else Some(Trim(v))
    case None => None
  }

  /** `str::replace("::", "_")`: leftmost, non-overlapping. */
  function ReplaceSeparators(s: string): string {
    if |s| >= 2 && s[0] == ':' && s[1] == ':' then "_" + ReplaceSeparators(s[2..])
    else if s == "" then ""
    else [s[0]] + ReplaceSeparators(s[1..])
  }

  function NormalizeIdPart(value: Option<string>): Option<string> {
    match NonEmpty(value)
    case Some(raw) => Some(ReplaceSeparators(raw))
    case None => None
  }

  function ScopeHint(chatgpt: Option<string>, workspace: Option<string>): Option<string> {
    match (NormalizeIdPart(chatgpt), NormalizeIdPart(workspace))
    case (Some(c), Some(w)) => Some(if c != w then CHATGPT_MARKER + c + "|" + WORKSPACE_MARKER + w else CHATGPT_MARKER + c)
    case (Some(c), None) => Some(CHATGPT_MARKER + c)
    case (None, Some(w)) => Some(WORKSPACE_MARKER + w)
    case (None, None) => None
  }

  function BuildAccountStorageId(subject: string, chatgpt: Option<string>, workspace: Option<string>, tags: Option<string>): string {
    var base := Trim(subject);
    match (ScopeHint(chatgpt, workspace), NormalizeIdPart(tags))
    case (None, None) => base
    case (Some(hint), None) => base + "::" + hint
    case (None, Some(tag)) => base + "::" + tag
    case (Some(hint), Some(tag)) => base + "::" + hint + "|" + tag
  }

  // ---- The parser

  /** `rsplit_once("::")`: what follows the last separator, if there is one. */
  function AfterLastSeparator(s: string): Option<string> {
    if |s| < 2 then None
    else if AfterLastSeparator(s[1..]).Some? then AfterLastSeparator(s[1..])
    else if s[0] == ':' && s[1] == ':' then Some(s[2..])
    else None
  }

  /** Puts one more character in front of a split text. */
  function Glue(c: char, segments: seq<string>): (r: seq<string>)
    requires |segments| >= 1
    ensures |r| >= 1
  {
    if c == '|' then [""] + segments else [[c] + segments[0]] + segments[1..]
  }

  function SplitBars(s: string): (segments: seq<string>)
    ensures |segments| >= 1
  {
    if s == "" then [""] else Glue(s[0], SplitBars(s[1..]))
  }

  /** The value a segment carries under `marker`, if it carries one. */
  function MarkedValue(segment: string, marker: string): Option<string> {
    var trimmed := Trim(segment);
    if marker <= trimmed && Trim(trimmed[|marker|..]) != "" then Some(Trim(trimmed[|marker|..])) else None
  }

  function FirstMarked(segments: seq<string>, marker: string): Option<string> {
    if segments == [] then None
    else if MarkedValue(segments[0], marker).Some? then MarkedValue(segments[0], marker)
    else FirstMarked(segments[1..], marker)
  }

  /** The scope carried by an identifier, before the parser's fallback to the identifier itself. */
  function ScopedValue(raw: string, marker: string): Option<string> {
    FirstMarked(SplitBars(AfterLastSeparator(raw).GetOr(raw)), marker)
  }

  function NormalizeScopedIdentityValue(value: Option<string>, marker: string): Option<string> {
    match NonEmpty(value)
    case None => None
    case Some(raw) =>
      if ScopedValue(raw, marker).Some? then ScopedValue(raw, marker)
      else if AfterLastSeparator(raw).Some? || '|' in raw || '=' in raw || "import-sub-" <= raw then None
      else Some(raw)
  }

  function NormalizeChatgptAccountId(value: Option<string>): Option<string> {
    NormalizeScopedIdentityValue(value, CHATGPT_MARKER)
  }

  function NormalizeWorkspaceId(value: Option<string>): Option<string> {
    NormalizeScopedIdentityValue(value, WORKSPACE_MARKER)
  }

  // ---- Separators never survive normalisation

  predicate HasSeparator(s: string) {
    exists i | 0 <= i < |s| - 1 :: s[i] == ':' && s[i + 1] == ':'
  }

  lemma {:induction false} ReplacedHead(s: string)
    ensures s == "" <==> ReplaceSeparators(s) == ""
    ensures s != "" && s[0] != ':' ==> ReplaceSeparators(s)[0] == s[0]
    ensures s != "" && s[0] == ':' ==> ReplaceSeparators(s)[0] in {'_', ':'}
    ensures |s| >= 2 && s[0] == ':' && ReplaceSeparators(s)[0] == ':' ==> s[1] != ':'
  {}

  lemma {:induction false} ReplacedHasNoSeparator(s: string)
    ensures !HasSeparator(ReplaceSeparators(s))
    decreases |s|
  {
    var r := ReplaceSeparators(s);
    if |s| >= 2 && s[0] == ':' && s[1] == ':' {
      ReplacedHasNoSeparator(s[2..]);
      assert r[1..] == ReplaceSeparators(s[2..]);
      ConsHasNoSeparator(r);
    } else if s != "" {
      ReplacedHasNoSeparator(s[1..]);
      ReplacedHead(s[1..]);
      assert r[1..] == ReplaceSeparators(s[1..]);
      ConsHasNoSeparator(r);
    }
  }

  lemma ConsHasNoSeparator(s: string)
    requires s != "" && !HasSeparator(s[1..])
    requires !(|s| >= 2 && s[0] == ':' && s[1] == ':')
    ensures !HasSeparator(s)
  {
    forall i | 0 <= i < |s| - 1 ensures !(s[i] == ':' && s[i + 1] == ':') {
      if i > 0 { assert s[1..][i - 1] == s[i] && s[1..][i] == s[i + 1]; }
    }
  }

  lemma {:induction false} ReplacedKeepsBars(s: string)
    ensures '|' in ReplaceSeparators(s) <==> '|' in s
    decreases |s|
  {
    if |s| >= 2 && s[0] == ':' && s[1] == ':' {
      ReplacedKeepsBars(s[2..]);
      assert s == s[..2] + s[2..];
    } else if s != "" {
      ReplacedKeepsBars(s[1..]);
      assert s == [s[0]] + s[1..];
    }
  }

  lemma {:induction false} ReplacedLast(s: string)
    requires s != ""
    ensures var r := ReplaceSeparators(s); r != "" && (r[|r| - 1] == s[|s| - 1] || r[|r| - 1] == '_')
    decreases |s|
  {
    if |s| >= 2 && s[0] == ':' && s[1] == ':' {
      if s[2..] != "" { ReplacedLast(s[2..]); }
    } else if |s| >= 2 {
      ReplacedLast(s[1..]);
    }
  }

  /** A normalised part is non-empty, tight and separator-free. */
  lemma NormalizedPartShape(value: Option<string>)
    requires NormalizeIdPart(value).Some?
    ensures var part := NormalizeIdPart(value).value;
            part != "" && Tight(IsWhitespace, part) && !HasSeparator(part)
  {
    var raw := Trim(value.value);
    TrimTightens(IsWhitespace, value.value);
    ReplacedHead(raw);
    ReplacedLast(raw);
    ReplacedHasNoSeparator(raw);
  }

  // ---- Splitting what the printer joined

  lemma {:induction false} NoSeparatorNoSplit(s: string)
    ensures AfterLastSeparator(s).None? <==> !HasSeparator(s)
  {
    if |s| >= 2 {
      NoSeparatorNoSplit(s[1..]);
      if HasSeparator(s[1..]) {
        var i :| 0 <= i < |s[1..]| - 1 && s[1..][i] == ':' && s[1..][i + 1] == ':';
        assert s[i + 1] == ':' && s[i + 2] == ':';
      } else if !(s[0] == ':' && s[1] == ':') {
        ConsHasNoSeparator(s);
      }
    }
  }

  lemma {:induction false} SplitAfterBase(base: string, suffix: string)
    requires !HasSeparator(suffix)
    requires suffix != "" ==> suffix[0] != ':'
    ensures AfterLastSeparator(base + "::" + suffix) == Some(suffix)
  {
    var s := base + "::" + suffix;
    if base == "" {
      var tail := ":" + suffix;
      assert s == ":" + tail && s[1..] == tail && tail[1..] == suffix;
      ConsHasNoSeparator(tail);
      NoSeparatorNoSplit(tail);
      assert s[2..] == suffix;
    } else {
      SplitAfterBase(base[1..], suffix);
      assert s[1..] == base[1..] + "::" + suffix;
    }
  }

  lemma {:induction false} SplitNoBar(s: string)
    requires '|' !in s
    ensures SplitBars(s) == [s]
  {
    if s != "" {
      assert s == [s[0]] + s[1..];
      SplitNoBar(s[1..]);
    }
  }

  lemma GlueAppend(c: char, a: seq<string>, b: seq<string>)
    requires |a| >= 1
    ensures Glue(c, a + b) == Glue(c, a) + b
  {
    assert (a + b)[1..] == a[1..] + b;
  }

  lemma {:induction false} SplitJoined(a: string, b: string)
    ensures SplitBars(a + "|" + b) == SplitBars(a) + SplitBars(b)
  {
    var s := a + "|" + b;
    if a == "" {
      assert s[1..] == b;
    } else {
      SplitJoined(a[1..], b);
      assert s[0] == a[0] && s[1..] == a[1..] + "|" + b;
      GlueAppend(a[0], SplitBars(a[1..]), SplitBars(b));
    }
  }

  lemma {:induction false} SegmentsHaveNoBar(s: string)
    ensures forall segment | segment in SplitBars(s) :: '|' !in segment
  {
    if s != "" { SegmentsHaveNoBar(s[1..]); }
  }

  lemma {:induction false} FirstMarkedAppend(a: seq<string>, b: seq<string>, marker: string)
    ensures FirstMarked(a + b, marker) == if FirstMarked(a, marker).Some? then FirstMarked(a, marker) else FirstMarked(b, marker)
  {
    if a == [] {
      assert a + b == b;
    } else {
      FirstMarkedAppend(a[1..], b, marker);
      assert (a + b)[1..] == a[1..] + b;
    }
  }

  // ---- Reading built identifiers back

  lemma JoinHasNoSeparator(a: string, b: string)
    requires !HasSeparator(a) && !HasSeparator(b)
    requires a != "" && b != "" ==> a[|a| - 1] != ':' || b[0] != ':'
    ensures !HasSeparator(a + b)
  {
    forall i | 0 <= i < |a + b| - 1 ensures !((a + b)[i] == ':' && (a + b)[i + 1] == ':') {
      if i >= |a| {
        assert (a + b)[i] == b[i - |a|] && (a + b)[i + 1] == b[i - |a| + 1];
      } else if i + 1 < |a| {
        assert (a + b)[i] == a[i] && (a + b)[i + 1] == a[i + 1];
      }
    }
  }

  lemma {:induction false} SplitPrefixed(prefix: string, s: string)
    requires '|' !in prefix
    ensures SplitBars(prefix + s) == [prefix + SplitBars(s)[0]] + SplitBars(s)[1..]
  {
    if prefix == "" {
      var segments := SplitBars(s);
      assert prefix + s == s && prefix + segments[0] == segments[0];
      assert segments == [segments[0]] + segments[1..];
    } else {
      SplitPrefixed(prefix[1..], s);
      assert prefix == [prefix[0]] + prefix[1..];
      assert (prefix + s)[1..] == prefix[1..] + s && prefix[0] in prefix;
      assert [prefix[0]] + (prefix[1..] + SplitBars(s)[0]) == prefix + SplitBars(s)[0];
    }
  }

  /** A tight value read from under its own marker is the value, and no other marker matches its segment. */
  lemma MarkedSegment(marker: string, value: string)
    requires marker in {CHATGPT_MARKER, WORKSPACE_MARKER}
    requires value != "" && Tight(IsWhitespace, value)
    ensures MarkedValue(marker + value, marker) == Some(value)
    ensures forall other | other in {CHATGPT_MARKER, WORKSPACE_MARKER} && other != marker ::
              MarkedValue(marker + value, other).None?
  {
    TightIsTrimmed(IsWhitespace, marker + value);
    TightIsTrimmed(IsWhitespace, value);
    assert (marker + value)[|marker|..] == value;
    assert (marker + value)[0] == marker[0];
  }

  /** What the tags alone would be read as. */
  function TagValue(tags: Option<string>, marker: string): Option<string> {
    match NormalizeIdPart(tags)
    case Some(tag) => FirstMarked(SplitBars(tag), marker)
    case None => None
  }

  predicate BarFree(part: Option<string>) {
    part.Some? ==> '|' !in part.value
  }

  /** The scope an identifier can carry: a workspace equal to the account id is dropped. */
  function EffectiveScope(chatgpt: Option<string>, workspace: Option<string>): (Option<string>, Option<string>) {
    var c, w := NormalizeIdPart(chatgpt), NormalizeIdPart(workspace);
    (c, if w == c then None else w)
  }

  function Suffix(chatgpt: Option<string>, workspace: Option<string>, tags: Option<string>): string
    requires ScopeHint(chatgpt, workspace).Some?
  {
    var hint := ScopeHint(chatgpt, workspace).value;
    match NormalizeIdPart(tags)
    case Some(tag) => hint + "|" + tag
    case None => hint
  }

  lemma MarkedHasNoSeparator(marker: string, value: Option<string>)
    requires marker in {CHATGPT_MARKER, WORKSPACE_MARKER} && NormalizeIdPart(value).Some?
    ensures !HasSeparator(marker + NormalizeIdPart(value).value)
  {
    NormalizedPartShape(value);
    JoinHasNoSeparator(marker, NormalizeIdPart(value).value);
  }

  lemma HintShape(chatgpt: Option<string>, workspace: Option<string>)
    requires ScopeHint(chatgpt, workspace).Some?
    ensures var hint := ScopeHint(chatgpt, workspace).value;
            hint != "" && hint[0] in {'c', 'w'} && !HasSeparator(hint) && Tight(IsWhitespace, hint)
  {
    var c, w := NormalizeIdPart(chatgpt), NormalizeIdPart(workspace);
    if c.Some? {
      NormalizedPartShape(chatgpt);
      MarkedHasNoSeparator(CHATGPT_MARKER, chatgpt);
    }
    if w.Some? {
      NormalizedPartShape(workspace);
      MarkedHasNoSeparator(WORKSPACE_MARKER, workspace);
    }
    if c.Some? && w.Some? {
      JoinHasNoSeparator("|", WORKSPACE_MARKER + w.value);
      JoinHasNoSeparator(CHATGPT_MARKER + c.value, "|" + (WORKSPACE_MARKER + w.value));
      assert CHATGPT_MARKER + c.value + "|" + WORKSPACE_MARKER + w.value
          == CHATGPT_MARKER + c.value + ("|" + (WORKSPACE_MARKER + w.value));
    }
  }

  /** A built identifier with a scope ends in its suffix, which the parser isolates. */
  lemma BuiltSuffix(subject: string, chatgpt: Option<string>, workspace: Option<string>, tags: Option<string>)
    requires ScopeHint(chatgpt, workspace).Some?
    ensures var id := BuildAccountStorageId(subject, chatgpt, workspace, tags);
            && id == Trim(subject) + "::" + Suffix(chatgpt, workspace, tags)
            && AfterLastSeparator(id) == Some(Suffix(chatgpt, workspace, tags))
            && NonEmpty(Some(id)) == Some(id)
  {
    hide AfterLastSeparator, ReplaceSeparators, ScopeHint;
    var id := BuildAccountStorageId(subject, chatgpt, workspace, tags);
    var hint := ScopeHint(chatgpt, workspace).value;
    var suffix := Suffix(chatgpt, workspace, tags);
    HintShape(chatgpt, workspace);
    if NormalizeIdPart(tags).Some? {
      var tag := NormalizeIdPart(tags).value;
      NormalizedPartShape(tags);
      JoinHasNoSeparator(hint, "|");
      JoinHasNoSeparator(hint + "|", tag);
      assert Trim(subject) + "::" + hint + "|" + tag == Trim(subject) + "::" + suffix;
    }
    SplitAfterBase(Trim(subject), suffix);
    TrimTightens(IsWhitespace, subject);
    assert Tight(IsWhitespace, id);
    TightIsTrimmed(IsWhitespace, id);
  }

  lemma HintSegments(chatgpt: Option<string>, workspace: Option<string>)
    requires ScopeHint(chatgpt, workspace).Some?
    ensures var (c, w) := EffectiveScope(chatgpt, workspace);
            SplitBars(ScopeHint(chatgpt, workspace).value) ==
              (if c.Some? then SplitBars(CHATGPT_MARKER + c.value) else []) +
              (if w.Some? then SplitBars(WORKSPACE_MARKER + w.value) else [])
  {
    var (c, w) := EffectiveScope(chatgpt, workspace);
    if c.Some? && w.Some? {
      SplitJoined(CHATGPT_MARKER + c.value, WORKSPACE_MARKER + w.value);
      assert CHATGPT_MARKER + c.value + "|" + WORKSPACE_MARKER + w.value
          == CHATGPT_MARKER + c.value + "|" + (WORKSPACE_MARKER + w.value);
    }
  }

  lemma OneSegment(marker: string, value: Option<string>)
    requires marker in {CHATGPT_MARKER, WORKSPACE_MARKER}
    requires NormalizeIdPart(value).Some? && BarFree(NormalizeIdPart(value))
    ensures var part := NormalizeIdPart(value).value;
            && SplitBars(marker + part) == [marker + part]
            && FirstMarked([marker + part], marker) == Some(part)
            && forall other | other in {CHATGPT_MARKER, WORKSPACE_MARKER} && other != marker ::
                 FirstMarked([marker + part], other).None?
  {
    var part := NormalizeIdPart(value).value;
    NormalizedPartShape(value);
    SplitNoBar(marker + part);
    MarkedSegment(marker, part);
  }

  /** What the parser finds in a built identifier, for ids without bars: the scope, else whatever the tags pose as. */
  lemma BuiltIdReadsBack(subject: string, chatgpt: Option<string>, workspace: Option<string>, tags: Option<string>)
    requires ScopeHint(chatgpt, workspace).Some?
    requires BarFree(NormalizeIdPart(chatgpt)) && BarFree(NormalizeIdPart(workspace))
    ensures var id := BuildAccountStorageId(subject, chatgpt, workspace, tags);
            var (c, w) := EffectiveScope(chatgpt, workspace);
            && ScopedValue(id, CHATGPT_MARKER) == (if c.Some? then c else TagValue(tags, CHATGPT_MARKER))
            && ScopedValue(id, WORKSPACE_MARKER) == (if w.Some? then w else TagValue(tags, WORKSPACE_MARKER))
            && NormalizeChatgptAccountId(Some(id)) == ScopedValue(id, CHATGPT_MARKER)
            && NormalizeWorkspaceId(Some(id)) == ScopedValue(id, WORKSPACE_MARKER)
  {
    var (c, w) := EffectiveScope(chatgpt, workspace);
    var hint := ScopeHint(chatgpt, workspace).value;
    BuiltSuffix(subject, chatgpt, workspace, tags);
    HintSegments(chatgpt, workspace);
    var first := if c.Some? then [CHATGPT_MARKER + c.value] else [];
    var second := if w.Some? then [WORKSPACE_MARKER + w.value] else [];
    if c.Some? { OneSegment(CHATGPT_MARKER, chatgpt); }
    if w.Some? { OneSegment(WORKSPACE_MARKER, workspace); }
    forall marker | marker in {CHATGPT_MARKER, WORKSPACE_MARKER}
      ensures FirstMarked(SplitBars(Suffix(chatgpt, workspace, tags)), marker) ==
              if FirstMarked(first, marker).Some? then FirstMarked(first, marker)
              else if FirstMarked(second, marker).Some? then FirstMarked(second, marker)
              else TagValue(tags, marker)
    {
      FirstMarkedAppend(first, second, marker);
      if NormalizeIdPart(tags).Some? {
        var tag := NormalizeIdPart(tags).value;
        SplitJoined(hint, tag);
        FirstMarkedAppend(SplitBars(hint), SplitBars(tag), marker);
      }
    }
  }

  lemma {:induction false} TrimmedMembers(blank: char -> bool, s: string)
    ensures forall c | c in TrimWith(blank, s) :: c in s
  {
    TrimLeftMembers(blank, s);
    TrimRightKeepsHead(blank, TrimLeft(blank, s));
  }

  lemma {:induction false} TrimLeftMembers(blank: char -> bool, s: string)
    ensures forall c | c in TrimLeft(blank, s) :: c in s
  {
    if s != "" && blank(s[0]) { TrimLeftMembers(blank, s[1..]); }
  }

  lemma {:induction false} MarkedValueHasNoBar(segments: seq<string>, marker: string)
    requires forall segment | segment in segments :: '|' !in segment
    ensures BarFree(FirstMarked(segments, marker))
  {
    if segments != [] {
      var trimmed := Trim(segments[0]);
      TrimmedMembers(IsWhitespace, segments[0]);
      assert '|' !in trimmed;
      if marker <= trimmed {
        TrimmedMembers(IsWhitespace, trimmed[|marker|..]);
        assert '|' !in trimmed[|marker|..];
      }
      MarkedValueHasNoBar(segments[1..], marker);
    }
  }

  /** For any subject, workspace and tags, the account id parses back exactly when it holds no `|`. */
  lemma ChatgptIdParsesBackExactlyWhenBarFree(subject: string, chatgpt: Option<string>, workspace: Option<string>, tags: Option<string>)
    requires NormalizeIdPart(chatgpt).Some?
    ensures NormalizeChatgptAccountId(Some(BuildAccountStorageId(subject, chatgpt, workspace, tags))) == NormalizeIdPart(chatgpt)
            <==> '|' !in Trim(chatgpt.value)
  {
    var id := BuildAccountStorageId(subject, chatgpt, workspace, tags);
    var suffix := Suffix(chatgpt, workspace, tags);
    var c := NormalizeIdPart(chatgpt).value;
    ReplacedKeepsBars(Trim(chatgpt.value));
    BuiltSuffix(subject, chatgpt, workspace, tags);
    SegmentsHaveNoBar(suffix);
    MarkedValueHasNoBar(SplitBars(suffix), CHATGPT_MARKER);
    if '|' !in c {
      OneSegment(CHATGPT_MARKER, chatgpt);
      HintSegments(chatgpt, workspace);
      assert SplitBars(ScopeHint(chatgpt, workspace).value)[0] == CHATGPT_MARKER + c;
      if NormalizeIdPart(tags).Some? {
        SplitJoined(ScopeHint(chatgpt, workspace).value, NormalizeIdPart(tags).value);
      }
      assert SplitBars(suffix)[0] == CHATGPT_MARKER + c;
    }
  }

  /** Between bar-free ids, a workspace parses back unless it equals its account id, and even then if the tags pose as
      it. */
  lemma WorkspaceParsesBackExactlyUnlessDropped(
      subject: string, chatgpt: Option<string>, workspace: Option<string>, tags: Option<string>)
    requires NormalizeIdPart(workspace).Some?
    requires BarFree(NormalizeIdPart(chatgpt)) && BarFree(NormalizeIdPart(workspace))
    ensures NormalizeWorkspaceId(Some(BuildAccountStorageId(subject, chatgpt, workspace, tags))) == NormalizeIdPart(workspace)
            <==> (|| NormalizeIdPart(chatgpt) != NormalizeIdPart(workspace)
                  || TagValue(tags, WORKSPACE_MARKER) == NormalizeIdPart(workspace))
  {
    BuiltIdReadsBack(subject, chatgpt, workspace, tags);
  }

  /** For one subject and one tag text, two scopes share a storage id exactly when they are the same effective scope. */
  lemma SameSubjectSameIdExactlyWhenSameScope(
      subject: string, tags: Option<string>,
      chatgpt: Option<string>, workspace: Option<string>, chatgpt': Option<string>, workspace': Option<string>)
    requires BarFree(NormalizeIdPart(chatgpt)) && BarFree(NormalizeIdPart(workspace))
    requires BarFree(NormalizeIdPart(chatgpt')) && BarFree(NormalizeIdPart(workspace'))
    ensures BuildAccountStorageId(subject, chatgpt, workspace, tags) == BuildAccountStorageId(subject, chatgpt', workspace', tags)
            <==> EffectiveScope(chatgpt, workspace) == EffectiveScope(chatgpt', workspace')
  {
    hide ReplaceSeparators, SplitBars, FirstMarked, BuildAccountStorageId;
    if BuildAccountStorageId(subject, chatgpt, workspace, tags) == BuildAccountStorageId(subject, chatgpt', workspace', tags) {
      SameIdSameHint(subject, tags, chatgpt, workspace, chatgpt', workspace');
      if ScopeHint(chatgpt, workspace).Some? {
        HintDecidesScope(chatgpt, workspace);
        HintDecidesScope(chatgpt', workspace');
      }
    } else {
      assert ScopeHint(chatgpt, workspace) != ScopeHint(chatgpt', workspace') by {
        SameHintSameId(subject, tags, chatgpt, workspace, chatgpt', workspace');
      }
    }
  }

  lemma SameHintSameId(
      subject: string, tags: Option<string>,
      chatgpt: Option<string>, workspace: Option<string>, chatgpt': Option<string>, workspace': Option<string>)
    ensures ScopeHint(chatgpt, workspace) == ScopeHint(chatgpt', workspace') ==>
              BuildAccountStorageId(subject, chatgpt, workspace, tags) == BuildAccountStorageId(subject, chatgpt', workspace', tags)
  {
    hide ScopeHint;
  }

  lemma SameIdSameHint(
      subject: string, tags: Option<string>,
      chatgpt: Option<string>, workspace: Option<string>, chatgpt': Option<string>, workspace': Option<string>)
    requires BuildAccountStorageId(subject, chatgpt, workspace, tags) == BuildAccountStorageId(subject, chatgpt', workspace', tags)
    ensures ScopeHint(chatgpt, workspace) == ScopeHint(chatgpt', workspace')
  {
    hide ScopeHint, NormalizeIdPart, BuildAccountStorageId, Trim;
    var hint, hint' := ScopeHint(chatgpt, workspace), ScopeHint(chatgpt', workspace');
    IdLength(subject, chatgpt, workspace, tags);
    IdLength(subject, chatgpt', workspace', tags);
    if hint.Some? && hint'.Some? {
      BuiltSuffix(subject, chatgpt, workspace, tags);
      BuiltSuffix(subject, chatgpt', workspace', tags);
      assert hint.value == Suffix(chatgpt, workspace, tags)[..|hint.value|] == hint'.value;
    }
  }

  lemma IdLength(subject: string, chatgpt: Option<string>, workspace: Option<string>, tags: Option<string>)
    ensures var hint, tag := ScopeHint(chatgpt, workspace), NormalizeIdPart(tags);
            |BuildAccountStorageId(subject, chatgpt, workspace, tags)| ==
              |Trim(subject)| + (if hint.None? && tag.None? then 0 else 2)
              + (if hint.Some? then |hint.value| + (if tag.Some? then 1 else 0) else 0)
              + (if tag.Some? then |tag.value| else 0)
    ensures ScopeHint(chatgpt, workspace).Some? ==> |ScopeHint(chatgpt, workspace).value| > 0
  {}

  lemma HintDecidesScope(chatgpt: Option<string>, workspace: Option<string>)
    requires BarFree(NormalizeIdPart(chatgpt)) && BarFree(NormalizeIdPart(workspace))
    requires ScopeHint(chatgpt, workspace).Some?
    ensures var segments := SplitBars(ScopeHint(chatgpt, workspace).value);
            EffectiveScope(chatgpt, workspace) ==
              (FirstMarked(segments, CHATGPT_MARKER), FirstMarked(segments, WORKSPACE_MARKER))
  {
    BuiltIdReadsBack("", chatgpt, workspace, None);
    BuiltSuffix("", chatgpt, workspace, None);
  }

  /** A scopeless subject that already looks scoped collides with the scoped one it imitates. */
  lemma ScopedLookingSubjectCollides()
    ensures BuildAccountStorageId("a::cgpt=b", None, None, None) == BuildAccountStorageId("a", Some("b"), None, None)
    ensures EffectiveScope(None, None) != EffectiveScope(Some("b"), None)
  {
    TightIsTrimmed(IsWhitespace, "a::cgpt=b");
    TightIsTrimmed(IsWhitespace, "a");
    TightIsTrimmed(IsWhitespace, "b");
    assert ReplaceSeparators("b") == "b" by { assert ReplaceSeparators("") == ""; }
    assert NormalizeIdPart(Some("b")) == Some("b");
    assert "a" + "::" + (CHATGPT_MARKER + "b") == "a::cgpt=b";
  }
}
