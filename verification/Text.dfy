/** Trimming, ordering and identifier normalisation shared by the storage queries. */
module Text {
  import opened Sorting

  /** Unicode White_Space, the set `str::trim` removes. */
  predicate IsWhitespace(c: char) {
    var n := c as int;
    || 0x09 <= n <= 0x0D || n == 0x20 || n == 0x85 || n == 0xA0 || n == 0x1680
    || 0x2000 <= n <= 0x200A || n == 0x2028 || n == 0x2029 || n == 0x202F || n == 0x205F || n == 0x3000
  }

  predicate IsDigit(c: char) {
    '0' <= c <= '9'
  }

  /** SQL's one-argument TRIM removes spaces only. */
  predicate IsSqlBlank(c: char) {
    c == ' '
  }

  function TrimLeft(blank: char -> bool, s: string): string {
    if s != "" && blank(s[0]) then TrimLeft(blank, s[1..]) else s
  }

  function TrimRight(blank: char -> bool, s: string): (r: string)
    ensures r <= s
  {
    if s != "" && blank(s[|s| - 1]) then TrimRight(blank, s[..|s| - 1]) else s
  }

  function TrimWith(blank: char -> bool, s: string): string {
    TrimRight(blank, TrimLeft(blank, s))
  }

  function Trim(s: string): string {
    TrimWith(IsWhitespace, s)
  }

  function SqlTrim(s: string): string {
    TrimWith(IsSqlBlank, s)
  }

  /** No blank at either end. */
  predicate Tight(blank: char -> bool, s: string) {
    s != "" ==> !blank(s[0]) && !blank(s[|s| - 1])
  }

  lemma {:induction false} TrimLeftDropsBlanks(blank: char -> bool, s: string)
    ensures TrimLeft(blank, s) != "" ==> !blank(TrimLeft(blank, s)[0])
  {
    if s != "" && blank(s[0]) {
      TrimLeftDropsBlanks(blank, s[1..]);
    }
  }

  lemma {:induction false} TrimRightKeepsHead(blank: char -> bool, s: string)
    ensures TrimRight(blank, s) <= s
    ensures TrimRight(blank, s) != "" ==> !blank(TrimRight(blank, s)[|TrimRight(blank, s)| - 1])
  {
    if s != "" && blank(s[|s| - 1]) {
      TrimRightKeepsHead(blank, s[..|s| - 1]);
    }
  }

  lemma TrimTightens(blank: char -> bool, s: string)
    ensures Tight(blank, TrimWith(blank, s))
  {
    TrimLeftDropsBlanks(blank, s);
    TrimRightKeepsHead(blank, TrimLeft(blank, s));
  }

  lemma TightIsTrimmed(blank: char -> bool, s: string)
    requires Tight(blank, s)
    ensures TrimWith(blank, s) == s
  {}

  lemma TrimIdempotent(blank: char -> bool, s: string)
    ensures TrimWith(blank, TrimWith(blank, s)) == TrimWith(blank, s)
  {
    TrimTightens(blank, s);
    TightIsTrimmed(blank, TrimWith(blank, s));
  }

  /** `r` stands in `s` at `at`, with nothing but blanks around it. */
  ghost predicate CoreAt(blank: char -> bool, s: string, r: string, at: nat) {
    && at + |r| <= |s|
    && s[at..at + |r|] == r
    && forall k | 0 <= k < |s| && !(at <= k < at + |r|) :: blank(s[k])
  }

  lemma {:induction false} TrimLeftKeepsCore(blank: char -> bool, s: string) returns (at: nat)
    ensures at <= |s| && TrimLeft(blank, s) == s[at..]
    ensures forall k | 0 <= k < at :: blank(s[k])
  {
    at := 0;
    if s != "" && blank(s[0]) {
      var rest := TrimLeftKeepsCore(blank, s[1..]);
      at := rest + 1;
      forall k | 0 <= k < at ensures blank(s[k]) {
        if k > 0 { assert s[k] == s[1..][k - 1]; }
      }
    }
  }

  lemma {:induction false} TrimRightKeepsCore(blank: char -> bool, s: string)
    ensures forall k | |TrimRight(blank, s)| <= k < |s| :: blank(s[k])
  {
    if s != "" && blank(s[|s| - 1]) { TrimRightKeepsCore(blank, s[..|s| - 1]); }
  }

  /** Trimming takes away blanks at the ends and nothing else. */
  lemma TrimKeepsCore(blank: char -> bool, s: string) returns (at: nat)
    ensures CoreAt(blank, s, TrimWith(blank, s), at) && Tight(blank, TrimWith(blank, s))
  {
    TrimTightens(blank, s);
    at := TrimLeftKeepsCore(blank, s);
    TrimRightKeepsCore(blank, s[at..]);
    forall k | at + |TrimWith(blank, s)| <= k < |s| ensures blank(s[k]) {
      assert s[k] == s[at..][k - at];
    }
  }

  /** Only one text can be what trimming leaves. */
  lemma TrimIsCore(blank: char -> bool, s: string, r: string, at: nat)
    requires r != "" && CoreAt(blank, s, r, at) && Tight(blank, r)
    ensures TrimWith(blank, s) == r
  {
    var t := TrimWith(blank, s);
    var start := TrimKeepsCore(blank, s);
    assert !blank(s[at]) && !blank(s[at + |r| - 1]);
    assert !blank(s[start]) && !blank(s[start + |t| - 1]);
  }

  lemma BlankIsAllWhitespace(s: string)
    ensures Trim(s) == "" <==> forall c | c in s :: IsWhitespace(c)
  {
    var at := TrimKeepsCore(IsWhitespace, s);
    var t := Trim(s);
    if t != "" {
      assert s[at..at + |t|][0] == s[at];
      assert s[at] in s && !IsWhitespace(s[at]);
    }
  }

  /** Lexicographic order on code points, the order of `String` and of a BINARY text column. */
  predicate StringLe(a: string, b: string) {
    a == "" || (b != "" && (a[0] < b[0] || (a[0] == b[0] && StringLe(a[1..], b[1..]))))
  }

  lemma {:induction false} StringLeTotal(a: string, b: string)
    ensures StringLe(a, b) || StringLe(b, a)
    ensures StringLe(a, b) && StringLe(b, a) ==> a == b
  {
    if a != "" && b != "" && a[0] == b[0] {
      StringLeTotal(a[1..], b[1..]);
      assert a == [a[0]] + a[1..] && b == [b[0]] + b[1..];
    }
  }

  lemma {:induction false} StringLeTransitive(a: string, b: string, c: string)
    requires StringLe(a, b) && StringLe(b, c)
    ensures StringLe(a, c)
  {
    if a != "" && a[0] == b[0] == c[0] {
      StringLeTransitive(a[1..], b[1..], c[1..]);
    }
  }

  /** The first difference between `a` and `b` is at `k`, where `a` ends or has the smaller character. */
  ghost predicate BelowFrom(a: string, b: string, k: nat) {
    && k <= |a| && k < |b|
    && (forall i | 0 <= i < k :: a[i] == b[i])
    && (k == |a| || a[k] < b[k])
  }

  lemma {:induction false} StringLeIsLexicographic(a: string, b: string)
    ensures StringLe(a, b) <==> a == b || exists k: nat :: BelowFrom(a, b, k)
  {
    if a == "" || b == "" || a[0] != b[0] {
      assert b != "" && StringLe(a, b) ==> BelowFrom(a, b, 0);
    } else {
      StringLeIsLexicographic(a[1..], b[1..]);
      assert a == [a[0]] + a[1..] && b == [b[0]] + b[1..];
      if k: nat :| BelowFrom(a[1..], b[1..], k) {
        forall i | 0 <= i < k + 1 ensures a[i] == b[i] {
          if i > 0 { assert a[1..][i - 1] == b[1..][i - 1]; }
        }
        assert BelowFrom(a, b, k + 1);
      }
      if k: nat :| BelowFrom(a, b, k) {
        assert BelowFrom(a[1..], b[1..], k - 1);
      }
    }
  }

  lemma BelowIsStrict(a: string, b: string)
    ensures (exists k: nat :: BelowFrom(a, b, k)) ==> a != b && !exists k: nat :: BelowFrom(b, a, k)
  {}

  lemma StringLeIsTotalOrder()
    ensures TotalPreorder(StringLe) && Antisymmetric(StringLe)
  {
    forall a: string, b: string
      ensures StringLe(a, b) || StringLe(b, a)
      ensures StringLe(a, b) && StringLe(b, a) ==> a == b
    {
      StringLeTotal(a, b);
    }
    forall a: string, b: string, c: string | StringLe(a, b) && StringLe(b, c)
      ensures StringLe(a, c)
    {
      StringLeTransitive(a, b, c);
    }
  }

  /** Trims every identifier and drops the blank ones, in place order. */
  function TrimAll(ids: seq<string>): seq<string> {
    if ids == [] then [] else (if Trim(ids[0]) == "" then [] else [Trim(ids[0])]) + TrimAll(ids[1..])
  }

  /** `Vec::dedup`: drops every element equal to its predecessor. */
  function Dedup(s: seq<string>): seq<string> {
    if |s| < 2 then s
    else if s[0] == s[1] then Dedup(s[1..])
    else [s[0]] + Dedup(s[1..])
  }

  function NormalizeTextIds(ids: seq<string>): seq<string> {
    Dedup(Sort(StringLe, TrimAll(ids)))
  }

  /** The set of identifiers a caller's list stands for: trimmed, blanks ignored. */
  ghost function RequestedIds(ids: seq<string>): set<string> {
    set id | id in ids && Trim(id) != "" :: Trim(id)
  }

  lemma {:induction false} TrimAllMembers(ids: seq<string>)
    ensures forall x :: x in TrimAll(ids) <==> x in RequestedIds(ids)
  {
    if ids != [] {
      TrimAllMembers(ids[1..]);
      assert ids == [ids[0]] + ids[1..];
      forall x ensures x in TrimAll(ids) <==> x in RequestedIds(ids) {
        if x in RequestedIds(ids) {
          var id :| id in ids && Trim(id) != "" && Trim(id) == x;
          assert id == ids[0] || id in ids[1..];
        }
        if x in TrimAll(ids[1..]) {
          var id :| id in ids[1..] && Trim(id) != "" && Trim(id) == x;
          assert id in ids;
        }
        if Trim(ids[0]) != "" && x == Trim(ids[0]) {
          assert ids[0] in ids;
        }
      }
    }
  }

  lemma StrictlyBelow(a: string, b: string, x: string)
    requires StringLe(a, b) && a != b && StringLe(b, x)
    ensures StringLe(a, x) && !StringLe(x, a)
  {
    StringLeTransitive(a, b, x);
    StringLeTotal(a, b);
    if StringLe(x, a) { StringLeTransitive(b, x, a); }
  }

  lemma {:induction false} DedupOfSorted(s: seq<string>)
    requires SortedBy(StringLe, s)
    ensures StrictlySorted(StringLe, Dedup(s))
    ensures forall x :: x in Dedup(s) <==> x in s
  {
    if |s| >= 2 {
      DedupOfSorted(s[1..]);
      assert s == [s[0]] + s[1..];
      if s[0] != s[1] {
        forall x | x in s[1..] ensures StringLe(s[0], x) && !StringLe(x, s[0]) {
          var k :| 0 <= k < |s[1..]| && s[1..][k] == x;
          StringLeTotal(x, x);
          StrictlyBelow(s[0], s[1], x);
        }
      } else {
        assert s[0] in s[1..];
      }
    }
  }

  /** The normalised list is the requested set, each identifier once, in increasing order. */
  lemma NormalizedIds(ids: seq<string>)
    ensures StrictlySorted(StringLe, NormalizeTextIds(ids))
    ensures Distinct(NormalizeTextIds(ids))
    ensures forall x :: x in NormalizeTextIds(ids) <==> x in RequestedIds(ids)
  {
    StringLeIsTotalOrder();
    SortSorts(StringLe, TrimAll(ids));
    SameMembers(Sort(StringLe, TrimAll(ids)), TrimAll(ids));
    TrimAllMembers(ids);
    DedupOfSorted(Sort(StringLe, TrimAll(ids)));
  }

  lemma RequestedIdsAreTrimmed(ids: seq<string>)
    ensures forall x | x in RequestedIds(ids) :: Trim(x) == x && x != ""
  {
    forall x | x in RequestedIds(ids) ensures Trim(x) == x && x != "" {
      var id :| id in ids && Trim(id) != "" && Trim(id) == x;
      TrimIdempotent(IsWhitespace, id);
    }
  }

  /** `text_id_in_clause` normalises its chunk again; on a normalised list that changes nothing. */
  lemma NormalizeIdempotent(ids: seq<string>)
    ensures NormalizeTextIds(NormalizeTextIds(ids)) == NormalizeTextIds(ids)
  {
    var once := NormalizeTextIds(ids);
    NormalizedIds(ids);
    NormalizedIds(once);
    RequestedIdsAreTrimmed(ids);
    forall x ensures x in RequestedIds(once) <==> x in once {
      if x in once { assert Trim(x) == x; }
    }
    StringLeIsTotalOrder();
    StrictSortIsUnique(StringLe, NormalizeTextIds(once), once);
  }
}
