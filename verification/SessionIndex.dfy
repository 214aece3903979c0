/** The session index: one JSON line a thread, read line by line and only ever appended to. */
module SessionIndex {
  import opened Wrappers
  import opened Sorting
  import opened Text
  import opened Json
  import opened JsonRoundTrip
  import opened JsonTrailingSpace
  import opened Rollout
  import opened Threads

  /** One line of `str::lines`: without its `\n`, nor the carriage return before it. */
  function IndexLine(segment: string): string {
    var line := LineOf(segment);
    if EndsLine(segment) && line != "" && line[|line| - 1] == CARRIAGE_RETURN then line[..|line| - 1] else line
  }

  function IdOf(line: string): Option<string> {
    match Parse(line)
    case None => None
    case Some(v) => if Field(v, "id").Some? && Field(v, "id").value.Str? then Some(Field(v, "id").value.text) else None
  }

  function IdsOf(segments: seq<string>): set<string> {
    set segment | segment in segments && IdOf(IndexLine(segment)).Some? :: IdOf(IndexLine(segment)).value
  }

  /** The ids a session index records. */
  function IndexIds(content: string): set<string> {
    IdsOf(SplitInclusive(content))
  }

  /** The line reads as an object with this text under "id". */
  ghost predicate ReadsId(line: string, id: string) {
    var v := Parse(line);
    v.Some? && v.value.Obj? && Get(v.value.members, "id") == Some(Str(id))
  }

  /** Some line of the index records the id. */
  ghost predicate Recorded(content: string, id: string) {
    exists segment | segment in SplitInclusive(content) :: ReadsId(LineOf(segment), id)
  }

  lemma IdIsRead(segment: string, id: string)
    ensures IdOf(IndexLine(segment)) == Some(id) <==> ReadsId(LineOf(segment), id)
  {
    hide Parse;
    var line := LineOf(segment);
    if EndsLine(segment) && line != "" && line[|line| - 1] == CARRIAGE_RETURN {
      var init := line[..|line| - 1];
      assert line == init + RETURN;
      ParseIgnoresReturn(init);
    }
  }

  lemma IdsAreRecorded(content: string)
    ensures forall id :: id in IndexIds(content) <==> Recorded(content, id)
  {
    hide IdOf, IndexLine, ReadsId, SplitInclusive, LineOf;
    forall id ensures id in IndexIds(content) <==> Recorded(content, id) {
      forall segment | segment in SplitInclusive(content)
        ensures IdOf(IndexLine(segment)) == Some(id) <==> ReadsId(LineOf(segment), id)
      {
        IdIsRead(segment, id);
      }
    }
  }

  method ReadSessionIndexIds(index: Option<string>) returns (ids: set<string>)
    ensures ids == IndexIds(index.GetOr(""))
    ensures forall id :: id in ids <==> Recorded(index.GetOr(""), id)
  {
    IdsAreRecorded(index.GetOr(""));
    hide Parse, SplitInclusive, IndexLine, Recorded;
    ids := {};
    var segments := SplitInclusive(index.GetOr(""));
    var i := 0;
    while i < |segments|
      invariant 0 <= i <= |segments|
      invariant ids == IdsOf(segments[..i])
    {
      assert segments[..i + 1] == segments[..i] + [segments[i]];
      IdsOfAppend(segments[..i], [segments[i]]);
      match IdOf(IndexLine(segments[i])) {
        case Some(id) => ids := ids + {id};
        case None =>
      }
      i := i + 1;
    }
    assert segments[..i] == segments;
  }

  lemma IdsOfAppend(a: seq<string>, b: seq<string>)
    ensures IdsOf(a + b) == IdsOf(a) + IdsOf(b)
  {}

  function TitleOf(row: Thread, columns: set<string>): Option<string> {
    if "title" in columns then row.title
    else if "first_user_message" in columns then row.firstUserMessage
    else row.id
  }

  function ThreadName(title: Option<string>): string {
    if title.None? || Trim(title.value) == "" then "Untitled" else title.value
  }

  function Times1000(seconds: Option<int>): Option<int> {
    match seconds
    case Some(n) => Some(n * 1000)
    case None => None
  }

  function UpdatedMs(row: Thread, columns: set<string>): int {
    var ms :=
      if "updated_at_ms" in columns && "updated_at" in columns then
        if row.updatedAtMs.Some? then row.updatedAtMs else Times1000(row.updatedAt)
      else if "updated_at_ms" in columns then row.updatedAtMs
      else if "updated_at" in columns then Times1000(row.updatedAt)
      else Some(0);
    ms.GetOr(0)
  }

  /** The index entry of a thread; `stamp` writes a millisecond count as a timestamp. */
  function EntryOf(row: Thread, columns: set<string>, stamp: int -> string): Value
    requires row.id.Some?
  {
    Obj(Member("id", Str(row.id.value),
        Member("thread_name", Str(ThreadName(TitleOf(row, columns))),
        Member("updated_at", Str(stamp(UpdatedMs(row, columns))), NoMembers))))
  }

  /** The threads the index does not record, in table order. */
  function Unrecorded(rows: seq<Thread>, existing: set<string>): (r: seq<Thread>)
    requires AllNamed(rows)
    ensures forall row :: row in r <==> row in rows && row.id.value !in existing
  {
    if rows == [] then [] else
      assert rows == [rows[0]] + rows[1..];
      (if rows[0].id.value in existing then [] else [rows[0]]) + Unrecorded(rows[1..], existing)
  }

  function Entries(rows: seq<Thread>, columns: set<string>, stamp: int -> string): (r: seq<Value>)
    requires AllNamed(rows)
    ensures |r| == |rows|
    ensures forall i | 0 <= i < |rows| :: rows[i].id.Some? && r[i] == EntryOf(rows[i], columns, stamp)
  {
    if rows == [] then [] else
      assert rows == [rows[0]] + rows[1..];
      [EntryOf(rows[0], columns, stamp)] + Entries(rows[1..], columns, stamp)
  }

  function EntryLines(entries: seq<Value>): string {
    if entries == [] then "" else Print(entries[0]) + "\n" + EntryLines(entries[1..])
  }

  /** Content ready to take another line. */
  function Closed(content: string): string {
    if content != "" && content[|content| - 1] != NEWLINE then content + "\n" else content
  }

  method AppendSessionIndexEntries(index: Option<string>, entries: seq<Value>) returns (content: string, added: nat)
    ensures content == Closed(index.GetOr("")) + EntryLines(entries)
    ensures added == |entries|
  {
    hide Print;
    content := Closed(index.GetOr(""));
    added := 0;
    while added < |entries|
      invariant 0 <= added <= |entries|
      invariant content + EntryLines(entries[added..]) == Closed(index.GetOr("")) + EntryLines(entries)
    {
      var line := Print(entries[added]);
      assert content + EntryLines(entries[added..]) == (content + line + "\n") + EntryLines(entries[added + 1..]) by {
        assert entries[added..][1..] == entries[added + 1..];
      }
      content := content + line + "\n";
      added := added + 1;
    }
  }

  lemma {:induction false} SplitAppend(a: string, b: string)
    requires a == "" || EndsLine(a)
    ensures SplitInclusive(a + b) == SplitInclusive(a) + SplitInclusive(b)
  {
    hide IsSegment, LineOf, LineLength;
    if a == "" {
      assert a + b == b;
    } else {
      var n := LineLength(a);
      var segment, rest := a[..n], a[n..];
      LineLengthIsFirstBreak(a);
      assert n == |a| ==> segment == a;
      SplitAppend(rest, b);
      assert a + b == segment + (rest + b);
      assert SplitInclusive(a) == [segment] + SplitInclusive(rest);
      SplitCons(segment, rest + b);
      assert [segment] + SplitInclusive(rest) + SplitInclusive(b) == [segment] + (SplitInclusive(rest) + SplitInclusive(b));
    }
  }

  /** Breaking off the last line changes that line only. */
  lemma {:induction false} SplitClosed(content: string)
    requires content != "" && !EndsLine(content)
    ensures var before := SplitInclusive(content);
            && before != [] && !EndsLine(before[|before| - 1])
            && SplitInclusive(content + "\n") == before[..|before| - 1] + [before[|before| - 1] + "\n"]
  {
    hide IsSegment, SplitInclusive, LineLength, LineOf;
    var n := LineLength(content);
    var segment, rest := content[..n], content[n..];
    LineLengthIsFirstBreak(content);
    SplitFirst(content);
    if n == |content| {
      assert segment == content && rest == "";
      LastLineClosed(content);
    } else {
      SplitClosed(rest);
      SplitCons(segment, rest + "\n");
      assert content + "\n" == segment + (rest + "\n");
    }
  }

  lemma SplitFirst(content: string)
    requires content != ""
    ensures SplitInclusive(content) == [content[..LineLength(content)]] + SplitInclusive(content[LineLength(content)..])
    ensures SplitInclusive("") == []
  {
    hide LineLength;
  }

  lemma LastLineClosed(line: string)
    requires IsSegment(line) && !EndsLine(line)
    ensures SplitInclusive(line + "\n") == [line + "\n"]
  {
    assert LineOf(line + "\n") == line;
    SplitCons(line + "\n", "");
    assert line + "\n" + "" == line + "\n";
  }

  /** An index line reads the same with and without its line break, even one that ends in a carriage return. */
  lemma SameId(line: string)
    requires !EndsLine(line)
    ensures IdOf(IndexLine(line + "\n")) == IdOf(IndexLine(line))
  {
    hide Parse;
    assert LineOf(line + "\n") == line;
    if line != "" && line[|line| - 1] == CARRIAGE_RETURN {
      var init := line[..|line| - 1];
      assert line == init + RETURN;
      ParseIgnoresReturn(init);
    }
  }

  /** Making room for another line keeps every line and every id. */
  lemma ClosedKeepsLines(content: string)
    ensures Closed(content) == "" || EndsLine(Closed(content))
    ensures var before, after := SplitInclusive(content), SplitInclusive(Closed(content));
            && |after| == |before|
            && (forall i | 0 <= i < |before| :: LineOf(after[i]) == LineOf(before[i]))
            && IdsOf(after) == IdsOf(before)
  {
    hide SplitInclusive, IndexLine, IdOf, LineOf, IdsOf;
    if Closed(content) != content {
      SplitClosed(content);
      var before := SplitInclusive(content);
      var last := before[|before| - 1];
      SameIds(last);
      IdsOfAppend(before[..|before| - 1], [last]);
      IdsOfAppend(before[..|before| - 1], [last + "\n"]);
      assert before == before[..|before| - 1] + [last];
    }
  }

  lemma SameIds(line: string)
    requires !EndsLine(line)
    ensures IdsOf([line + "\n"]) == IdsOf([line])
    ensures LineOf(line + "\n") == LineOf(line) == line
  {
    hide IndexLine, IdOf;
    SameId(line);
    assert line in [line] && line + "\n" in [line + "\n"];
  }

  lemma EntryIsWellFormed(row: Thread, columns: set<string>, stamp: int -> string)
    requires row.id.Some?
    ensures WellFormed(EntryOf(row, columns, stamp)) && Depth(EntryOf(row, columns, stamp)) == 1
  {
    hide ThreadName, TitleOf, UpdatedMs;
    var third := Member("updated_at", Str(stamp(UpdatedMs(row, columns))), NoMembers);
    var second := Member("thread_name", Str(ThreadName(TitleOf(row, columns))), third);
    var first := Member("id", Str(row.id.value), second);
    TextMember("updated_at", stamp(UpdatedMs(row, columns)), NoMembers);
    TextMember("thread_name", ThreadName(TitleOf(row, columns)), third);
    TextMember("id", row.id.value, second);
    assert EntryOf(row, columns, stamp) == Obj(first);
  }

  lemma TextMember(key: string, text: string, tail: Members)
    requires WellFormedMembers(tail) && Below(key, tail)
    ensures WellFormedMembers(Member(key, Str(text), tail)) && DepthMembers(Member(key, Str(text), tail)) == DepthMembers(tail)
    ensures DepthMembers(NoMembers) == 0
  {
    assert Depth(Str(text)) == 0;
  }

  lemma EntryReads(row: Thread, columns: set<string>, stamp: int -> string)
    requires row.id.Some?
    ensures var line := Print(EntryOf(row, columns, stamp));
            NEWLINE !in line && IndexLine(line + "\n") == line && IdOf(line) == row.id
  {
    hide Parse, Print;
    var entry := EntryOf(row, columns, stamp);
    var line := Print(entry);
    EntryIsWellFormed(row, columns, stamp);
    PrintHasNoControl(entry);
    PrintParseRoundTrip(entry);
    ObjectIsNotBlank(entry);
    assert LineOf(line + "\n") == line;
  }

  lemma NoLines()
    ensures SplitInclusive("") == [] && IdsOf([]) == {}
  {}

  lemma ClosedLine(line: string)
    requires NEWLINE !in line
    ensures LineOf(line + "\n") == line && IsSegment(line + "\n") && EndsLine(line + "\n")
  {}

  lemma OneId(segment: string, id: string)
    requires IdOf(IndexLine(segment)) == Some(id)
    ensures IdsOf([segment]) == {id}
  {
    hide IdOf, IndexLine;
    assert segment in [segment];
  }

  lemma {:induction false} EntryLinesSplit(rows: seq<Thread>, columns: set<string>, stamp: int -> string)
    requires AllNamed(rows)
    ensures var segments := SplitInclusive(EntryLines(Entries(rows, columns, stamp)));
            && |segments| == |rows|
            && (forall i | 0 <= i < |rows| ::
                  rows[i].id.Some? && segments[i] == Print(EntryOf(rows[i], columns, stamp)) + "\n")
            && IdsOf(segments) == set row | row in rows :: row.id.value
  {
    hide Print, Parse, EntryOf, IdOf, IndexLine, IdsOf, LineOf, IsSegment, SplitInclusive;
    if rows == [] {
      NoLines();
    } else {
      var rest := EntryLines(Entries(rows[1..], columns, stamp));
      assert rows == [rows[0]] + rows[1..];
      EntryLinesSplit(rows[1..], columns, stamp);
      EntryReads(rows[0], columns, stamp);
      var line := Print(EntryOf(rows[0], columns, stamp));
      var segment := line + "\n";
      ClosedLine(line);
      SplitCons(segment, rest);
      IdsOfAppend([segment], SplitInclusive(rest));
      OneId(segment, rows[0].id.value);
    }
  }

  /** Appending entries keeps every old line in place and adds one line per entry; the ids are the old ones and the
      new ones, whether or not the file ended in a line break. */
  lemma AppendedIndex(content: string, rows: seq<Thread>, columns: set<string>, stamp: int -> string)
    requires AllNamed(rows)
    ensures var before := SplitInclusive(content);
            var after := SplitInclusive(Closed(content) + EntryLines(Entries(rows, columns, stamp)));
            && |after| == |before| + |rows|
            && (forall i | 0 <= i < |before| :: LineOf(after[i]) == LineOf(before[i]))
            && (forall i | 0 <= i < |rows| ::
                  rows[i].id.Some? && after[|before| + i] == Print(EntryOf(rows[i], columns, stamp)) + "\n")
    ensures IndexIds(Closed(content) + EntryLines(Entries(rows, columns, stamp))) ==
            IndexIds(content) + set row | row in rows :: row.id.value
  {
    hide SplitInclusive, IdOf, IndexLine, EntryOf, Print, Parse, LineOf;
    var lines := EntryLines(Entries(rows, columns, stamp));
    ClosedKeepsLines(content);
    SplitAppend(Closed(content), lines);
    EntryLinesSplit(rows, columns, stamp);
    IdsOfAppend(SplitInclusive(Closed(content)), SplitInclusive(lines));
  }

  lemma {:induction false} UnrecordedKeepsOrder(rows: seq<Thread>, existing: set<string>)
    requires AllNamed(rows) && SortedBy(IdLe, rows)
    ensures SortedBy(IdLe, Unrecorded(rows, existing))
  {
    if rows != [] {
      assert rows == [rows[0]] + rows[1..];
      UnrecordedKeepsOrder(rows[1..], existing);
      var rest := Unrecorded(rows[1..], existing);
      forall i | 0 <= i < |rest| ensures IdLe(rows[0], rest[i]) {
        assert rest[i] in rows[1..];
      }
    }
  }

  /** Which entries are missing does not depend on the provider column. */
  lemma {:induction false} SameEntries(
    rows: seq<Thread>, existing: set<string>, columns: set<string>, stamp: int -> string, target: string)
    requires AllNamed(rows)
    ensures AllNamed(AlignRows(rows, target))
    ensures Entries(Unrecorded(AlignRows(rows, target), existing), columns, stamp) ==
            Entries(Unrecorded(rows, existing), columns, stamp)
  {
    hide EntryOf, AlignRow;
    if rows != [] {
      assert rows == [rows[0]] + rows[1..];
      SameEntries(rows[1..], existing, columns, stamp, target);
      SameEntry(rows[0], columns, stamp, target);
      var aligned := AlignRows(rows[1..], target);
      assert AlignRows(rows, target) == [AlignRow(rows[0], target)] + aligned;
      UnrecordedCons(rows[0], rows[1..], existing);
      UnrecordedCons(AlignRow(rows[0], target), aligned, existing);
      if rows[0].id.value !in existing {
        EntriesCons(rows[0], Unrecorded(rows[1..], existing), columns, stamp);
        EntriesCons(AlignRow(rows[0], target), Unrecorded(aligned, existing), columns, stamp);
      }
    }
  }

  lemma UnrecordedCons(row: Thread, rows: seq<Thread>, existing: set<string>)
    requires row.id.Some? && AllNamed(rows)
    ensures AllNamed([row] + rows)
    ensures Unrecorded([row] + rows, existing) ==
            (if row.id.value in existing then [] else [row]) + Unrecorded(rows, existing)
  {
    assert ([row] + rows)[1..] == rows;
  }

  lemma EntriesCons(row: Thread, rows: seq<Thread>, columns: set<string>, stamp: int -> string)
    requires row.id.Some? && AllNamed(rows)
    ensures AllNamed([row] + rows)
    ensures Entries([row] + rows, columns, stamp) == [EntryOf(row, columns, stamp)] + Entries(rows, columns, stamp)
  {
    hide EntryOf;
    assert ([row] + rows)[1..] == rows;
  }

  lemma SameEntry(row: Thread, columns: set<string>, stamp: int -> string, target: string)
    requires row.id.Some?
    ensures AlignRow(row, target).id == row.id
    ensures EntryOf(AlignRow(row, target), columns, stamp) == EntryOf(row, columns, stamp)
  {}

  lemma {:induction false} AllRecorded(rows: seq<Thread>, existing: set<string>)
    requires AllNamed(rows) && forall row | row in rows :: row.id.value in existing
    ensures Unrecorded(rows, existing) == []
  {
    if Unrecorded(rows, existing) != [] {
      assert Unrecorded(rows, existing)[0] in Unrecorded(rows, existing);
      assert false;
    }
  }
}
