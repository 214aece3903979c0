/** When two accounts of different scopes are given one storage id. */
module IdentityCollisions {
  import opened Wrappers
  import opened Text
  import opened AccountIdentity

  /** What a storage id is built from. */
  datatype Parts = Parts(subject: string, chatgpt: Option<string>, workspace: Option<string>, tags: Option<string>)

  function IdOf(a: Parts): string {
    BuildAccountStorageId(a.subject, a.chatgpt, a.workspace, a.tags)
  }

  function ScopeOf(a: Parts): (Option<string>, Option<string>) {
    EffectiveScope(a.chatgpt, a.workspace)
  }

  predicate Scoped(a: Parts) {
    ScopeHint(a.chatgpt, a.workspace).Some?
  }

  predicate BarFreeScope(a: Parts) {
    BarFree(NormalizeIdPart(a.chatgpt)) && BarFree(NormalizeIdPart(a.workspace))
  }

  function SuffixOf(a: Parts): string
    requires Scoped(a)
  {
    Suffix(a.chatgpt, a.workspace, a.tags)
  }

  function WithTag(text: string, tag: Option<string>): string {
    if tag.Some? then text + "|" + tag.value else text
  }

  lemma SuffixText(a: Parts)
    requires Scoped(a)
    ensures var (c, w) := ScopeOf(a);
            && (c.Some? || w.Some?)
            && SuffixOf(a) == WithTag(
                 if c.None? then WORKSPACE_MARKER + w.value
                 else if w.Some? then CHATGPT_MARKER + c.value + "|" + WORKSPACE_MARKER + w.value
                 else CHATGPT_MARKER + c.value, NormalizeIdPart(a.tags))
  {
    hide NormalizeIdPart;
  }

  /** Scoped ids coincide exactly if their trimmed subjects and their suffixes do. */
  lemma ScopedIdsCoincideExactly(a: Parts, b: Parts)
    requires Scoped(a) && Scoped(b)
    ensures IdOf(a) == IdOf(b) <==> Trim(a.subject) == Trim(b.subject) && SuffixOf(a) == SuffixOf(b)
  {
    hide BuildAccountStorageId, ScopeHint, Suffix, Trim;
    BuiltSuffix(a.subject, a.chatgpt, a.workspace, a.tags);
    BuiltSuffix(b.subject, b.chatgpt, b.workspace, b.tags);
    if IdOf(a) == IdOf(b) {
      var n := |IdOf(a)| - |SuffixOf(a)| - 2;
      assert IdOf(a)[..n] == Trim(a.subject) && IdOf(b)[..n] == Trim(b.subject);
    }
  }

  /** `b` has `a`'s account id, no workspace, and spells `a`'s workspace and tags in its own tags. */
  predicate SpellsInTags(a: Parts, b: Parts) {
    var ((c, w), (c', w')) := (ScopeOf(a), ScopeOf(b));
    && Trim(a.subject) == Trim(b.subject)
    && c.Some? && c' == c && w.Some? && w'.None?
    && NormalizeIdPart(b.tags) == Some(WithTag(WORKSPACE_MARKER + w.value, NormalizeIdPart(a.tags)))
  }

  /** `a` has no scope, and its subject and tags spell `b`'s suffix. A tag that begins with a colon lends it to the
      separator, and the subject of `b` takes the colon that is left. */
  predicate SpellsSuffix(a: Parts, b: Parts)
    requires Scoped(b)
  {
    match NormalizeIdPart(a.tags)
    case None => Trim(a.subject) == Trim(b.subject) + "::" + SuffixOf(b)
    case Some(tag) =>
      || (Trim(a.subject) == Trim(b.subject) && tag == SuffixOf(b))
      || (Trim(a.subject) + ":" == Trim(b.subject) && tag == ":" + SuffixOf(b))
  }

  /** Equal suffixes of different scopes: the parser tells which part one of them has in its tags. */
  lemma SuffixesOfDifferentScopes(a: Parts, b: Parts)
    requires Scoped(a) && Scoped(b) && BarFreeScope(a) && BarFreeScope(b)
    requires IdOf(a) == IdOf(b) && SuffixOf(a) == SuffixOf(b) && ScopeOf(a) != ScopeOf(b)
    ensures var ((c, w), (c', w')) := (ScopeOf(a), ScopeOf(b));
            c.Some? && c' == c && (w.Some? <==> w'.None?)
  {
    hide BuildAccountStorageId, NormalizeIdPart, TagValue, ScopedValue;
    SuffixText(a);
    SuffixText(b);
    assert SuffixOf(a)[0] == (if ScopeOf(a).0.Some? then 'c' else 'w');
    assert SuffixOf(b)[0] == (if ScopeOf(b).0.Some? then 'c' else 'w');
    BuiltIdReadsBack(a.subject, a.chatgpt, a.workspace, a.tags);
    BuiltIdReadsBack(b.subject, b.chatgpt, b.workspace, b.tags);
  }

  lemma SpelledSuffix(a: Parts, b: Parts)
    requires Scoped(a) && Scoped(b)
    requires ScopeOf(a).0.Some? && ScopeOf(b).0 == ScopeOf(a).0 && ScopeOf(a).1.Some? && ScopeOf(b).1.None?
    ensures SuffixOf(a) == SuffixOf(b) <==>
            NormalizeIdPart(b.tags) == Some(WithTag(WORKSPACE_MARKER + ScopeOf(a).1.value, NormalizeIdPart(a.tags)))
  {
    SuffixText(a);
    SuffixText(b);
    hide NormalizeIdPart, Suffix, ScopeHint, EffectiveScope;
    var front := CHATGPT_MARKER + ScopeOf(a).0.value;
    var spelled := WithTag(WORKSPACE_MARKER + ScopeOf(a).1.value, NormalizeIdPart(a.tags));
    TagGoesLast(front + "|" + WORKSPACE_MARKER, ScopeOf(a).1.value, NormalizeIdPart(a.tags));
    assert SuffixOf(a) == front + "|" + spelled by {
      TagGoesLast(WORKSPACE_MARKER, ScopeOf(a).1.value, NormalizeIdPart(a.tags));
      assert front + "|" + (WORKSPACE_MARKER + WithTag(ScopeOf(a).1.value, NormalizeIdPart(a.tags))) ==
             front + "|" + WORKSPACE_MARKER + WithTag(ScopeOf(a).1.value, NormalizeIdPart(a.tags));
    }
    if SuffixOf(a) == SuffixOf(b) {
      var n := |front| + 1;
      assert SuffixOf(b)[n..] == SuffixOf(a)[n..] == spelled;
    }
  }

  lemma TagGoesLast(front: string, text: string, tag: Option<string>)
    ensures WithTag(front + text, tag) == front + WithTag(text, tag)
  {}

  /** Two scoped ids of different scopes coincide exactly if one spells the other's workspace in its tags. */
  lemma ScopedCollisions(a: Parts, b: Parts)
    requires Scoped(a) && Scoped(b) && BarFreeScope(a) && BarFreeScope(b) && ScopeOf(a) != ScopeOf(b)
    ensures IdOf(a) == IdOf(b) <==> SpellsInTags(a, b) || SpellsInTags(b, a)
  {
    hide BuildAccountStorageId, NormalizeIdPart, Suffix, ScopeHint, EffectiveScope, Trim;
    ScopedIdsCoincideExactly(a, b);
    if IdOf(a) == IdOf(b) { SuffixesOfDifferentScopes(a, b); }
    if ScopeOf(a).0.Some? && ScopeOf(b).0 == ScopeOf(a).0 {
      if ScopeOf(a).1.Some? && ScopeOf(b).1.None? { SpelledSuffix(a, b); }
      if ScopeOf(b).1.Some? && ScopeOf(a).1.None? { SpelledSuffix(b, a); }
    }
  }

  /** A scopeless id and a scoped one coincide exactly if the scopeless subject and tags spell the other's suffix. */
  lemma ScopelessCollisions(a: Parts, b: Parts)
    requires !Scoped(a) && Scoped(b)
    ensures IdOf(a) == IdOf(b) <==> SpellsSuffix(a, b)
  {
    hide ScopeHint, Suffix, Trim, ReplaceSeparators, AfterLastSeparator, HasSeparator;
    var suffix := SuffixOf(b);
    BuiltSuffix(b.subject, b.chatgpt, b.workspace, b.tags);
    if NormalizeIdPart(a.tags).Some? {
      var (base, tag) := (Trim(a.subject), NormalizeIdPart(a.tags).value);
      NormalizedPartShape(a.tags);
      if tag[0] != ':' {
        SplitAfterBase(base, tag);
        SuffixStart(b);
        SameBase(base, tag, Trim(b.subject), suffix);
      } else {
        TagLendsColon(base, tag);
        SuffixStart(b);
        SameBase(base + ":", tag[1..], Trim(b.subject), suffix);
        assert tag == ":" + tag[1..];
      }
    }
  }

  lemma SuffixStart(b: Parts)
    requires Scoped(b)
    ensures SuffixOf(b) != "" && SuffixOf(b)[0] != ':'
  {
    SuffixText(b);
  }

  lemma SameBase(one: string, text: string, other: string, suffix: string)
    requires AfterLastSeparator(one + "::" + text) == Some(text)
    requires AfterLastSeparator(other + "::" + suffix) == Some(suffix)
    ensures one + "::" + text == other + "::" + suffix <==> one == other && text == suffix
  {
    if one + "::" + text == other + "::" + suffix {
      assert (one + "::" + text)[..|one|] == one && (other + "::" + suffix)[..|other|] == other;
    }
  }

  lemma TagLendsColon(base: string, tag: string)
    requires tag != "" && tag[0] == ':' && !HasSeparator(tag)
    ensures base + "::" + tag == base + ":" + "::" + tag[1..]
    ensures AfterLastSeparator(base + ":" + "::" + tag[1..]) == Some(tag[1..])
  {
    var rest := tag[1..];
    assert rest != "" ==> rest[0] != ':' by {
      if rest != "" { assert tag[1] == rest[0]; }
    }
    forall i | 0 <= i < |rest| - 1 ensures !(rest[i] == ':' && rest[i + 1] == ':') {
      assert tag[i + 1] == rest[i] && tag[i + 2] == rest[i + 1];
    }
    SplitAfterBase(base + ":", rest);
    assert tag == ":" + rest;
    assert base + "::" + (":" + rest) == base + ":" + "::" + rest;
  }

  /** How one account's parts can spell another's id. */
  predicate Spells(a: Parts, b: Parts) {
    if !Scoped(a) && Scoped(b) then SpellsSuffix(a, b) else Scoped(a) && Scoped(b) && SpellsInTags(a, b)
  }

  /** Different scopes of bar-free ids share a storage id if and only if the subject or the tags of one spell what the
      other has in its scope. */
  lemma DifferentScopesShareIdExactlyWhenSpelled(a: Parts, b: Parts)
    requires BarFreeScope(a) && BarFreeScope(b) && ScopeOf(a) != ScopeOf(b)
    ensures IdOf(a) == IdOf(b) <==> Spells(a, b) || Spells(b, a)
  {
    hide BuildAccountStorageId, SpellsSuffix, SpellsInTags;
    if Scoped(a) && Scoped(b) {
      ScopedCollisions(a, b);
    } else if Scoped(b) {
      ScopelessCollisions(a, b);
    } else if Scoped(a) {
      ScopelessCollisions(b, a);
    }
  }
}
