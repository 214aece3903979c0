/** The lines a repair adds to the session index, in terms of the thread's columns. */
module IndexLines {
  import opened Wrappers
  import opened Sorting
  import opened Text
  import opened Json
  import opened JsonRoundTrip
  import opened Rollout
  import opened Threads
  import opened SessionIndex

  /** The text itself, or a fixed name if there is none or nothing but whitespace. */
  ghost predicate IsName(name: string, text: Option<string>) {
    name == if text.None? || (forall c | c in text.value :: IsWhitespace(c)) then "Untitled" else text.value
  }

  /** The title names the thread; without that column the first user message does, without both the id. */
  ghost predicate NamesThread(name: string, row: Thread, columns: set<string>) {
    && ("title" in columns ==> IsName(name, row.title))
    && ("title" !in columns && "first_user_message" in columns ==> IsName(name, row.firstUserMessage))
    && ("title" !in columns && "first_user_message" !in columns ==> IsName(name, row.id))
  }

  /** The milliseconds column, else the seconds column in milliseconds, else 0. */
  ghost predicate UpdatedAt(ms: int, row: Thread, columns: set<string>) {
    && ("updated_at_ms" in columns && row.updatedAtMs.Some? ==> ms == row.updatedAtMs.value)
    && ("updated_at_ms" in columns && row.updatedAtMs.None? ==>
          ms == if "updated_at" in columns && row.updatedAt.Some? then row.updatedAt.value * 1000 else 0)
    && ("updated_at_ms" !in columns ==>
          ms == if "updated_at" in columns && row.updatedAt.Some? then row.updatedAt.value * 1000 else 0)
  }

  function ThreeFields(id: string, name: string, time: string): Value {
    Obj(Member("id", Str(id), Member("thread_name", Str(name), Member("updated_at", Str(time), NoMembers))))
  }

  /** One line of the index: an object of three fields, which reads back. */
  ghost predicate LineHolds(segment: string, id: string, name: string, time: string) {
    && segment == "{\"id\":" + Quote(id) + ",\"thread_name\":" + Quote(name) + ",\"updated_at\":" + Quote(time) + "}\n"
    && Parse(segment[..|segment| - 1]) == Some(ThreeFields(id, name, time))
  }

  ghost predicate RecordsThread(segment: string, row: Thread, columns: set<string>, stamp: int -> string) {
    exists name, ms | NamesThread(name, row, columns) && UpdatedAt(ms, row, columns) ::
      row.id.Some? && LineHolds(segment, row.id.value, name, stamp(ms))
  }

  /** Every old line in its place, then one line for each of `rows`. */
  ghost predicate LinesAdded(
    before: string, after: string, rows: seq<Thread>, columns: set<string>, stamp: int -> string)
  {
    var old_, new_ := SplitInclusive(before), SplitInclusive(after);
    && |new_| == |old_| + |rows|
    && (forall i | 0 <= i < |old_| :: LineOf(new_[i]) == LineOf(old_[i]))
    && (forall i | 0 <= i < |rows| :: RecordsThread(new_[|old_| + i], rows[i], columns, stamp))
  }

  lemma ThreadNameIsName(text: Option<string>)
    ensures IsName(ThreadName(text), text)
  {
    hide Trim;
    if text.Some? { BlankIsAllWhitespace(text.value); }
  }

  lemma TitleNamesThread(row: Thread, columns: set<string>)
    ensures NamesThread(ThreadName(TitleOf(row, columns)), row, columns)
  {
    hide ThreadName, IsName;
    ThreadNameIsName(TitleOf(row, columns));
  }

  lemma MillisecondsAreUpdatedAt(row: Thread, columns: set<string>)
    ensures UpdatedAt(UpdatedMs(row, columns), row, columns)
  {}

  lemma {:induction false} PlainText(s: string)
    requires forall i | 0 <= i < |s| :: EscapeChar(s[i]) == [s[i]]
    ensures Escape(s) == s
  {
    hide EscapeChar;
    if s != "" {
      PlainText(s[1..]);
      assert s == [s[0]] + s[1..];
    }
  }

  lemma KeysAreQuoted()
    ensures Quote("id") == "\"id\"" && Quote("thread_name") == "\"thread_name\"" && Quote("updated_at") == "\"updated_at\""
  {
    hide Escape;
    PlainText("id");
    PlainText("thread_name");
    PlainText("updated_at");
  }

  lemma MemberInText(key: string, text: string, tail: Members)
    ensures PrintMembers(Member(key, Str(text), tail)) ==
            Quote(key) + ":" + Quote(text) + (if tail.NoMembers? then "" else "," + PrintMembers(tail))
  {
    hide Quote;
    assert Print(Str(text)) == Quote(text);
  }

  lemma Joined(one: string, a: string, two: string, b: string, three: string, c: string)
    ensures "{" + (one + ":" + a + ("," + (two + ":" + b + ("," + (three + ":" + c + ""))))) + "}" ==
            ("{" + one + ":") + a + ("," + two + ":") + b + ("," + three + ":") + c + "}"
  {
    var inner := three + ":" + c;
    assert inner + "" == inner;
    assert two + ":" + b + ("," + inner) == two + ":" + b + ("," + three + ":") + c;
    var middle := two + ":" + b + ("," + three + ":") + c;
    assert "," + middle == ("," + two + ":") + b + ("," + three + ":") + c;
    var all := ("," + two + ":") + b + ("," + three + ":") + c;
    assert "{" + (one + ":" + a + all) + "}" == ("{" + one + ":") + a + all + "}";
    assert ("{" + one + ":") + a + all + "}" ==
           ("{" + one + ":") + a + ("," + two + ":") + b + ("," + three + ":") + c + "}";
  }

  lemma FieldsInText(id: string, name: string, time: string)
    ensures Print(ThreeFields(id, name, time)) ==
            "{\"id\":" + Quote(id) + ",\"thread_name\":" + Quote(name) + ",\"updated_at\":" + Quote(time) + "}"
  {
    hide Quote, PrintMembers;
    var third := Member("updated_at", Str(time), NoMembers);
    var second := Member("thread_name", Str(name), third);
    MemberInText("updated_at", time, NoMembers);
    MemberInText("thread_name", name, third);
    MemberInText("id", id, second);
    Joined(Quote("id"), Quote(id), Quote("thread_name"), Quote(name), Quote("updated_at"), Quote(time));
    KeysAreQuoted();
    OpeningsInText();
  }

  lemma OpeningsInText()
    ensures "{" + "\"id\"" + ":" == "{\"id\":"
    ensures "," + "\"thread_name\"" + ":" == ",\"thread_name\":"
    ensures "," + "\"updated_at\"" + ":" == ",\"updated_at\":"
  {}

  lemma EntryLineRecords(row: Thread, columns: set<string>, stamp: int -> string)
    requires row.id.Some?
    ensures RecordsThread(Print(EntryOf(row, columns, stamp)) + "\n", row, columns, stamp)
  {
    hide Print, Parse, ThreadName, TitleOf, UpdatedMs, NamesThread, UpdatedAt, Quote;
    var name, ms := ThreadName(TitleOf(row, columns)), UpdatedMs(row, columns);
    TitleNamesThread(row, columns);
    MillisecondsAreUpdatedAt(row, columns);
    EntryIsWellFormed(row, columns, stamp);
    PrintParseRoundTrip(EntryOf(row, columns, stamp));
    FieldsInText(row.id.value, name, stamp(ms));
    var line := Print(EntryOf(row, columns, stamp));
    assert (line + "\n")[..|line|] == line;
    assert LineHolds(line + "\n", row.id.value, name, stamp(ms));
  }

  lemma EntriesAddLines(content: string, rows: seq<Thread>, columns: set<string>, stamp: int -> string)
    requires AllNamed(rows)
    ensures LinesAdded(content, Closed(content) + EntryLines(Entries(rows, columns, stamp)), rows, columns, stamp)
  {
    hide SplitInclusive, EntryOf, Print, LineOf, RecordsThread, IndexIds, Closed, EntryLines, Entries;
    AppendedIndex(content, rows, columns, stamp);
    forall i | 0 <= i < |rows|
      ensures rows[i].id.Some? && RecordsThread(Print(EntryOf(rows[i], columns, stamp)) + "\n", rows[i], columns, stamp)
    {
      assert rows[i] in rows;
      EntryLineRecords(rows[i], columns, stamp);
    }
  }
  // ---- Which threads

  /** Every thread of the table the index does not record, as often as it is there and no other, in id order. */
  ghost predicate AreMissing(rows: seq<Thread>, table: ThreadsTable, index: string) {
    && (forall row: Thread ::
          multiset(rows)[row] == if row.id.Some? && !Recorded(index, row.id.value) then multiset(table.rows)[row] else 0)
    && (forall i, j | 0 <= i < j < |rows| ::
          && rows[i].id.Some? && rows[j].id.Some?
          && (rows[i].id == rows[j].id || exists k: nat :: BelowFrom(rows[i].id.value, rows[j].id.value, k)))
  }

  /** `added` lines came in for the unrecorded threads of the table. */
  ghost predicate ThreadsRecorded(table: ThreadsTable, before: string, after: string, stamp: int -> string, added: nat) {
    exists rows ::
      |rows| == added && AreMissing(rows, table, before) && LinesAdded(before, after, rows, table.columns, stamp)
  }

  lemma {:induction false} UnrecordedRows(rows: seq<Thread>, existing: set<string>)
    requires AllNamed(rows)
    ensures forall row: Thread :: multiset(Unrecorded(rows, existing))[row] ==
              if row.id.Some? && row.id.value !in existing then multiset(rows)[row] else 0
  {
    if rows != [] {
      assert rows == [rows[0]] + rows[1..];
      UnrecordedRows(rows[1..], existing);
      var rest := Unrecorded(rows[1..], existing);
      UnrecordedCons(rows[0], rows[1..], existing);
      assert [rows[0]] + rows[1..] == rows && [] + rest == rest;
    }
  }

  lemma MissingRowsAreMissing(table: ThreadsTable, index: string)
    requires AllNamed(Sort(IdLe, table.rows))
    ensures AreMissing(Unrecorded(Sort(IdLe, table.rows), IndexIds(index)), table, index)
  {
    hide IndexIds, Recorded, BelowFrom, Sort, IdLe, StringLe, SortedBy, TotalPreorder, Unrecorded;
    var ordered := Sort(IdLe, table.rows);
    var rows := Unrecorded(ordered, IndexIds(index));
    IdsAreRecorded(index);
    UnrecordedRows(ordered, IndexIds(index));
    IdLeIsPreorder();
    SortSorts(IdLe, table.rows);
    UnrecordedKeepsOrder(ordered, IndexIds(index));
    IdOrderIsLexicographic(rows);
  }

  lemma IdOrderIsLexicographic(rows: seq<Thread>)
    requires AllNamed(rows) && SortedBy(IdLe, rows)
    ensures forall i, j | 0 <= i < j < |rows| ::
              && rows[i].id.Some? && rows[j].id.Some?
              && (rows[i].id == rows[j].id || exists k: nat :: BelowFrom(rows[i].id.value, rows[j].id.value, k))
  {
    hide BelowFrom, StringLe;
    forall i, j | 0 <= i < j < |rows|
      ensures && rows[i].id.Some? && rows[j].id.Some?
              && (rows[i].id == rows[j].id || exists k: nat :: BelowFrom(rows[i].id.value, rows[j].id.value, k))
    {
      assert rows[i] in rows && rows[j] in rows && IdLe(rows[i], rows[j]);
      StringLeIsLexicographic(rows[i].id.value, rows[j].id.value);
    }
  }
}
