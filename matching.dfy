/** How a tab's rules are matched: against a live remote tab (`_match_tab`), and against
    a name a caller asks for (`Tab.compare`). */
module Matching {
  import opened Common
  import opened Text

  /** A live remote tab as the injector reports it. */
  datatype Session = Session(title: string, url: string)

  /** A tab's `keywords`. Tabs built in code carry a list of aliases; a tab created from
      a mapping-file line carries the query string itself, so `in` on it is a substring
      test and iterating it yields one-character strings. */
  datatype Keywords = KeywordList(items: seq<string>) | KeywordText(text: string)

  /** The three rule lists of a tab: `tab_names_regex`, `tab_url_parts`, `keywords`. */
  datatype Identity = Identity(patterns: seq<string>, urlParts: seq<string>, keywords: Keywords)

  /** Python's `name in keywords`. */
  predicate KeywordHit(k: Keywords, name: string) {
    match k
    case KeywordList(items) => name in items
    case KeywordText(text) => Contains(text, name)
  }

  /** What `for keyword in keywords` yields. */
  function KeywordItems(k: Keywords): (items: seq<string>)
    ensures forall i :: 0 <= i < |items| ==> KeywordHit(k, items[i])
  {
    match k
    case KeywordList(items) => items
    case KeywordText(text) =>
      var items := seq(|text|, i requires 0 <= i < |text| => [text[i]]);
      assert forall i :: 0 <= i < |text| ==> OccursAt(text, items[i], i);
      forall i | 0 <= i < |text| ensures Contains(text, items[i]) {
        ContainsIff(text, items[i]);
      }
      items
  }

  /** `_match_tab(tab, name_mappings, url_parts)`: some URL part occurs in the remote
      tab's URL, or some name pattern, anchored at both ends, matches its title.
      `fullMatch(p, t)` stands for `re.match(p + "$", t) is not None`. */
  predicate MatchTab(s: Session, patterns: seq<string>, urlParts: seq<string>,
                     fullMatch: (string, string) -> bool)
  {
    (exists u :: u in urlParts && Contains(s.url, u))
    || (exists p :: p in patterns && fullMatch(p, s.title))
  }

  /** A remote tab whose URL contains one of the URL parts matches, whatever its title. */
  lemma UrlPartDecides(s: Session, patterns: seq<string>, urlParts: seq<string>,
                       fullMatch: (string, string) -> bool, u: string, i: nat)
    requires u in urlParts && OccursAt(s.url, u, i)
    ensures MatchTab(s, patterns, urlParts, fullMatch)
  {
    ContainsIff(s.url, u);
  }

  /** `name.startswith("~") and name.endswith("~")`; a lone `~` passes both tests. */
  predicate IsTilded(name: string) {
    |name| >= 1 && name[0] == '~' && name[|name| - 1] == '~'
  }

  /** Python's `name[1:-1]`, which is empty for strings shorter than two characters. */
  function TildeInner(name: string): (inner: string)
    ensures |name| >= 2 ==> [name[0]] + inner + [name[|name| - 1]] == name
    ensures |name| < 2 ==> inner == []
  {
    if |name| >= 2 then name[1..|name| - 1] else []
  }

  /** `Tab.compare(name)` for a tab with rules `id` whose remote tab has title `title`
      (`None` when it has no remote tab). The `~x~` form is not length-checked here. */
  predicate CompareIdentity(id: Identity, title: Option<string>, name: string) {
    || name in id.patterns
    || KeywordHit(id.keywords, name)
    || title == Some(name)
    || name in id.urlParts
    || (IsTilded(name) && TildeInner(name) in id.urlParts)
  }

  /** The rules `get_tab` gives the tab it creates when no cached tab answers to
      `name`: the URL part `name[1:-1]` for a `~x~` name longer than two characters,
      otherwise the single name pattern `name`. Either way the new tab answers to
      `name`, whatever its title, so the same query finds it again. */
  function NewTabIdentity(name: string): (id: Identity)
    ensures forall title :: CompareIdentity(id, title, name)
    ensures id.keywords == KeywordList([])
    ensures IsTilded(name) && |name| > 2 ==>
              id.patterns == [] && |id.urlParts| == 1 && [name[0]] + id.urlParts[0] + [name[|name| - 1]] == name
    ensures !(IsTilded(name) && |name| > 2) ==> id.patterns == [name] && id.urlParts == []
  {
    if IsTilded(name) && |name| > 2 then Identity([], [TildeInner(name)], KeywordList([]))
    else Identity([name], [], KeywordList([]))
  }

  /** `~~` is too short to create a URL-part tab, yet `compare` reads it as the
      empty URL part: the length check of tab creation and the one of `compare` differ. */
  lemma TildeLengthGap(id: Identity, title: Option<string>)
    requires [] in id.urlParts
    ensures CompareIdentity(id, title, "~~") && CompareIdentity(id, title, "~")
    ensures NewTabIdentity("~~").patterns == ["~~"]
  {
  }

  /** The keyword part of a merge: the absorbed tab's keyword items are appended to a
      list that lacks them. Appending to a string raises `AttributeError` in the source,
      which is `None` here; it is reached only when some item is not already a
      substring of that string. */
  function MergeKeywords(target: Keywords, items: seq<string>): (r: Option<Keywords>)
    ensures r.None? <==> target.KeywordText? && exists i :: 0 <= i < |items| && !KeywordHit(target, items[i])
    ensures r.Some? ==> forall i :: 0 <= i < |items| ==> KeywordHit(r.value, items[i])
    ensures r.Some? ==> forall n :: KeywordHit(target, n) ==> KeywordHit(r.value, n)
    ensures r.Some? && target.KeywordList? ==> r.value.KeywordList? && target.items <= r.value.items
    ensures r.Some? && target.KeywordText? ==> r.value == target
  {
    match target
    case KeywordList(l) =>
      UnionIntoHas(l, items);
      UnionIntoKeepsPrefix(l, items);
      Some(KeywordList(UnionInto(l, items)))
    case KeywordText(t) =>
      if forall i :: 0 <= i < |items| ==> Contains(t, items[i]) then Some(target) else None
  }

  /** The survivor of a merge takes every rule of the absorbed tab; the keyword part
      may fail as described at `MergeKeywords`. */
  function MergeIdentity(absorbed: Identity, survivor: Identity): Option<Identity> {
    match MergeKeywords(survivor.keywords, KeywordItems(absorbed.keywords))
    case None => None
    case Some(k) =>
      Some(Identity(UnionInto(survivor.patterns, absorbed.patterns),
                    UnionInto(survivor.urlParts, absorbed.urlParts), k))
  }

  /** After a merge the survivor matches every remote tab that either tab matched, and
      answers every name either tab answered to, except names that the absorbed tab
      matched only as a substring of its keyword string. */
  lemma {:induction false} MergeIdentityCovers(absorbed: Identity, survivor: Identity,
                                               title: Option<string>,
                                               fullMatch: (string, string) -> bool)
    requires MergeIdentity(absorbed, survivor).Some?
    ensures var m := MergeIdentity(absorbed, survivor).value;
      && (forall s :: MatchTab(s, absorbed.patterns, absorbed.urlParts, fullMatch)
                      || MatchTab(s, survivor.patterns, survivor.urlParts, fullMatch)
                      ==> MatchTab(s, m.patterns, m.urlParts, fullMatch))
      && (forall n :: CompareIdentity(survivor, title, n) ==> CompareIdentity(m, title, n))
      && (forall n :: CompareIdentity(absorbed, title, n) && !(absorbed.keywords.KeywordText? && KeywordHit(absorbed.keywords, n))
                      ==> CompareIdentity(m, title, n))
  {
    var m := MergeIdentity(absorbed, survivor).value;
    UnionIntoHas(survivor.patterns, absorbed.patterns);
    UnionIntoHas(survivor.urlParts, absorbed.urlParts);
    forall n | CompareIdentity(absorbed, title, n) && !(absorbed.keywords.KeywordText? && KeywordHit(absorbed.keywords, n))
      ensures CompareIdentity(m, title, n)
    {
      if KeywordHit(absorbed.keywords, n) {
        var i :| 0 <= i < |absorbed.keywords.items| && absorbed.keywords.items[i] == n;
        assert KeywordItems(absorbed.keywords)[i] == n;
      }
    }
  }

  /** `later` keeps every rule of `earlier`: the pattern and URL-part lists only grow at
      their ends, a keyword list only grows at its end, and a keyword string stays. */
  predicate RulesGrew(earlier: Identity, later: Identity) {
    && earlier.patterns <= later.patterns
    && earlier.urlParts <= later.urlParts
    && (|| earlier.keywords == later.keywords
        || (earlier.keywords.KeywordList? && later.keywords.KeywordList?
            && earlier.keywords.items <= later.keywords.items))
  }

  /** Every pattern, URL part and keyword item of `absorbed` is present in `survivor`. */
  predicate Covers(survivor: Identity, absorbed: Identity) {
    && (forall p :: p in absorbed.patterns ==> p in survivor.patterns)
    && (forall u :: u in absorbed.urlParts ==> u in survivor.urlParts)
    && (forall k :: k in KeywordItems(absorbed.keywords) ==> KeywordHit(survivor.keywords, k))
  }

  /** A successful merge only grows the survivor, and leaves it covering the absorbed tab. */
  lemma MergeIdentityGrowsAndCovers(absorbed: Identity, survivor: Identity)
    requires MergeIdentity(absorbed, survivor).Some?
    ensures RulesGrew(survivor, MergeIdentity(absorbed, survivor).value)
    ensures Covers(MergeIdentity(absorbed, survivor).value, absorbed)
  {
    UnionIntoKeepsPrefix(survivor.patterns, absorbed.patterns);
    UnionIntoKeepsPrefix(survivor.urlParts, absorbed.urlParts);
    UnionIntoHas(survivor.patterns, absorbed.patterns);
    UnionIntoHas(survivor.urlParts, absorbed.urlParts);
  }

  /** Every pattern and URL part of `absorbed` is present in `survivor`; keywords aside. */
  predicate CoversLists(survivor: Identity, absorbed: Identity) {
    && (forall p :: p in absorbed.patterns ==> p in survivor.patterns)
    && (forall u :: u in absorbed.urlParts ==> u in survivor.urlParts)
  }

  /** What the survivor holds when the keyword append raises: the absorbed tab's
      patterns and URL parts appended, its own keywords as they were. */
  function HalfMergeIdentity(absorbed: Identity, survivor: Identity): Identity {
    Identity(UnionInto(survivor.patterns, absorbed.patterns),
             UnionInto(survivor.urlParts, absorbed.urlParts), survivor.keywords)
  }

  /** A merge stopped at the keyword append still only grows the survivor, which then
      holds the absorbed tab's patterns and URL parts, takes nothing from elsewhere and
      gains no duplicate. */
  lemma HalfMergeGrows(absorbed: Identity, survivor: Identity)
    ensures RulesGrew(survivor, HalfMergeIdentity(absorbed, survivor))
    ensures CoversLists(HalfMergeIdentity(absorbed, survivor), absorbed)
    ensures DrawnFrom(HalfMergeIdentity(absorbed, survivor), survivor, {absorbed})
    ensures ListsNoDup(survivor) ==> ListsNoDup(HalfMergeIdentity(absorbed, survivor))
  {
    var h := HalfMergeIdentity(absorbed, survivor);
    UnionIntoKeepsPrefix(survivor.patterns, absorbed.patterns);
    UnionIntoKeepsPrefix(survivor.urlParts, absorbed.urlParts);
    UnionIntoHas(survivor.patterns, absorbed.patterns);
    UnionIntoHas(survivor.urlParts, absorbed.urlParts);
    if ListsNoDup(survivor) {
      UnionIntoNoDup(survivor.patterns, absorbed.patterns);
      UnionIntoNoDup(survivor.urlParts, absorbed.urlParts);
    }
    forall p | p in h.patterns && p !in survivor.patterns ensures exists d :: d in {absorbed} && p in d.patterns {
      assert absorbed in {absorbed};
    }
    forall u | u in h.urlParts && u !in survivor.urlParts ensures exists d :: d in {absorbed} && u in d.urlParts {
      assert absorbed in {absorbed};
    }
  }

  /** No pattern, URL part or listed keyword appears twice (a keyword string is not a
      list and always qualifies). */
  predicate ListsNoDup(id: Identity) {
    && NoDup(id.patterns)
    && NoDup(id.urlParts)
    && (id.keywords.KeywordList? ==> NoDup(id.keywords.items))
  }

  /** Every pattern, URL part and keyword item of `now` is one of `base` or one of some
      identity in `donors`: `now` took nothing from anywhere else. */
  predicate DrawnFrom(now: Identity, base: Identity, donors: set<Identity>) {
    && (forall p :: p in now.patterns ==> p in base.patterns || exists d :: d in donors && p in d.patterns)
    && (forall u :: u in now.urlParts ==> u in base.urlParts || exists d :: d in donors && u in d.urlParts)
    && (forall k :: k in KeywordItems(now.keywords) ==>
          k in KeywordItems(base.keywords) || exists d :: d in donors && k in KeywordItems(d.keywords))
  }

  /** The merge appends only what is missing, so a survivor without duplicates stays
      without them. */
  lemma MergeIdentityNoDup(absorbed: Identity, survivor: Identity)
    requires MergeIdentity(absorbed, survivor).Some? && ListsNoDup(survivor)
    ensures ListsNoDup(MergeIdentity(absorbed, survivor).value)
  {
    UnionIntoNoDup(survivor.patterns, absorbed.patterns);
    UnionIntoNoDup(survivor.urlParts, absorbed.urlParts);
    if survivor.keywords.KeywordList? {
      UnionIntoNoDup(survivor.keywords.items, KeywordItems(absorbed.keywords));
    }
  }

  /** Everything the merged survivor holds was in the survivor or in the absorbed tab. */
  lemma MergeIdentityDrawn(absorbed: Identity, survivor: Identity)
    requires MergeIdentity(absorbed, survivor).Some?
    ensures DrawnFrom(MergeIdentity(absorbed, survivor).value, survivor, {absorbed})
  {
    var m := MergeIdentity(absorbed, survivor).value;
    UnionIntoHas(survivor.patterns, absorbed.patterns);
    UnionIntoHas(survivor.urlParts, absorbed.urlParts);
    if survivor.keywords.KeywordList? {
      UnionIntoHas(survivor.keywords.items, KeywordItems(absorbed.keywords));
    }
    forall p | p in m.patterns && p !in survivor.patterns ensures exists d :: d in {absorbed} && p in d.patterns {
      assert absorbed in {absorbed};
    }
    forall u | u in m.urlParts && u !in survivor.urlParts ensures exists d :: d in {absorbed} && u in d.urlParts {
      assert absorbed in {absorbed};
    }
    forall k | k in KeywordItems(m.keywords) && k !in KeywordItems(survivor.keywords)
      ensures exists d :: d in {absorbed} && k in KeywordItems(d.keywords)
    {
      assert absorbed in {absorbed};
    }
  }

  /** More donors explain at least as much. */
  lemma DrawnFromMore(now: Identity, base: Identity, donors: set<Identity>, more: set<Identity>)
    requires DrawnFrom(now, base, donors) && donors <= more
    ensures DrawnFrom(now, base, more)
  {
    forall p | p in now.patterns && p !in base.patterns ensures exists d :: d in more && p in d.patterns {
      var d :| d in donors && p in d.patterns;
    }
    forall u | u in now.urlParts && u !in base.urlParts ensures exists d :: d in more && u in d.urlParts {
      var d :| d in donors && u in d.urlParts;
    }
    forall k | k in KeywordItems(now.keywords) && k !in KeywordItems(base.keywords)
      ensures exists d :: d in more && k in KeywordItems(d.keywords)
    {
      var d :| d in donors && k in KeywordItems(d.keywords);
    }
  }

  /** Drawing `now` from `mid` and `other`, where both were drawn from their own bases
      and `donors`, draws `now` from `base`, `donors` and `other`'s base. */
  lemma {:induction false} DrawnFromChain(now: Identity, mid: Identity, other: Identity,
                                          base: Identity, otherBase: Identity, donors: set<Identity>)
    requires DrawnFrom(now, mid, {other})
    requires DrawnFrom(mid, base, donors) && DrawnFrom(other, otherBase, donors)
    ensures DrawnFrom(now, base, donors + {otherBase})
  {
    var all := donors + {otherBase};
    forall p | p in now.patterns && p !in base.patterns ensures exists d :: d in all && p in d.patterns {
      if p !in mid.patterns {
        assert p in other.patterns;
        if p in otherBase.patterns { assert otherBase in all; } else { var d :| d in donors && p in d.patterns; }
      } else {
        var d :| d in donors && p in d.patterns;
      }
    }
    forall u | u in now.urlParts && u !in base.urlParts ensures exists d :: d in all && u in d.urlParts {
      if u !in mid.urlParts {
        assert u in other.urlParts;
        if u in otherBase.urlParts { assert otherBase in all; } else { var d :| d in donors && u in d.urlParts; }
      } else {
        var d :| d in donors && u in d.urlParts;
      }
    }
    forall k | k in KeywordItems(now.keywords) && k !in KeywordItems(base.keywords)
      ensures exists d :: d in all && k in KeywordItems(d.keywords)
    {
      if k !in KeywordItems(mid.keywords) {
        assert k in KeywordItems(other.keywords);
        if k in KeywordItems(otherBase.keywords) {
          assert otherBase in all;
        } else {
          var d :| d in donors && k in KeywordItems(d.keywords);
        }
      } else {
        var d :| d in donors && k in KeywordItems(d.keywords);
      }
    }
  }

  /** Growth keeps coverage: a survivor that later gains rules still covers what it took. */
  lemma {:induction false} CoversAfterGrowth(survivor: Identity, later: Identity, absorbed: Identity)
    requires Covers(survivor, absorbed) && RulesGrew(survivor, later)
    ensures Covers(later, absorbed)
  {
    forall k | k in KeywordItems(absorbed.keywords) ensures KeywordHit(later.keywords, k) {
      assert KeywordHit(survivor.keywords, k);
      if survivor.keywords != later.keywords {
        assert k in survivor.keywords.items;
      }
    }
    forall p | p in absorbed.patterns ensures p in later.patterns {
      assert p in survivor.patterns;
    }
    forall u | u in absorbed.urlParts ensures u in later.urlParts {
      assert u in survivor.urlParts;
    }
  }

  /** Growth is a preorder, so growth over several merges composes. */
  lemma RulesGrewTrans(a: Identity, b: Identity, c: Identity)
    requires RulesGrew(a, b) && RulesGrew(b, c)
    ensures RulesGrew(a, c)
  {
  }
}
