# CSS Loader tab mapping, in Dafny

This project models `css_tab_mapping.py`, the part of the CSS Loader plugin that decides
which Steam client tab a theme's CSS goes to and queues that CSS for it. It has three parts.

- **The per-tab transaction buffer.** `inject_css` stores CSS under a fresh id in
  `pending_add`. `remove_css` cancels an uncommitted add or queues the id in
  `pending_remove`. `commit_css_transaction` snapshots and clears both buffers, sends one
  `{add, remove}` payload, and retries the evaluation up to `retry` times.
  `remove_all_css` clears the buffers and runs the remove-everything script under the
  same retry loop.
- **Identity matching.** `_match_tab` matches a remote tab by URL substring or by an
  anchored regex on its title. `Tab.compare` decides whether a tab answers to a name:
  through its patterns, its keywords, its current title, its URL parts, or the `~x~`
  literal-URL form.
- **The tab registry** over `CSS_LOADER_TAB_CACHE`:
  - `get_tab` looks tabs up and creates a tab on a miss;
  - `get_single_tab` and `get_tabs` build on `get_tab`;
  - `load_tab_mappings` resets the cache to three built-in tabs, then applies the rules
    of `mappings.txt` line by line;
  - `optimize_tabs` merges connected tabs that share a title: the earlier tab of a pair
    is pointed at the later one, which takes its rules, and leaves the cache;
  - `commit_all` and `remove_all` run the buffer operations over the connected tabs.

The modules follow that structure:

- `Common`: option and outcome types, plus the list helpers the registry uses.
  - `UnionInto` is the "append if not already present" loop.
  - `Without` is the cache after some tabs have been removed.
- `Text`: Python's substring `in`, `str.strip()` and `str.split(":")`.
- `Matching`: remote tabs, rules (`Identity`), `_match_tab`, `compare`, the rules of a
  tab created on a miss, and the merge of two tabs' rules. `_match_tab` and
  `Tab.compare` are the predicates `MatchTab` and `CompareIdentity`; what they decide
  is stated by the lemmas about the functions that use them.
- `Transaction`: the buffers, the payload, its effect on the page, and the retry loop.
- `Mappings`: parsing one line of `mappings.txt`.
- `Tabs`: the `Tab` class. Its fields are updated in place.
- `Registry`: the `TabCache` class. It owns the cache as a `seq<Tab>` field.

The remote tab is modelled by its title and URL (`Session`), plus one flag for a live
websocket. `is_connected` is "a remote tab is attached and its socket is live".

Some behaviours of the code are kept as written:

- **A keyword string.** A tab created by a mapping rule whose query matches two or more
  tabs gets the query string itself as its `keywords` (line 243).
  - `compare` on that tab is then a substring test.
  - Iterating those keywords yields one-character strings.
  - Appending to them in `optimize_tabs` raises `AttributeError`. `OptimizeTabs` reports
    that as `KeywordAppendRaised`, in the state the exception leaves behind. The tab
    being absorbed (the ghost `half`) then already points at the survivor and has given
    it its patterns and URL parts, but it is still in the cache.
- **`get_single_tab` rarely returns `None`.** On a miss, `get_tab` creates a tab. So
  `get_single_tab` returns `None` only when two or more tabs answer.
- **Two length checks.** A `~x~` name creates a URL-part tab only when it is longer than
  two characters. `compare` applies no length check to the same form.

## Model

| member | source | states |
|---|---|---|
| Matching.UrlPartDecides | css_tab_mapping.py:5-14 | A remote tab whose URL contains one of a tab's URL parts matches that tab, whatever its title or name patterns |
| Matching.TildeInner | css_tab_mapping.py:109 | `name[1:-1]`: for names of two or more characters, the first character, then the result, then the last character rebuild the name; for shorter names it is empty |
| Matching.TildeLengthGap | css_tab_mapping.py:109 | `compare` reads `~~` and `~` as the empty URL part, while a query of `~~` creates a name-pattern tab rather than a URL-part tab |
| Matching.NewTabIdentity | css_tab_mapping.py:264-267 | The tab created on a miss has the URL part `name[1:-1]` when `name` is `~x~` and longer than two characters, and the single pattern `name` otherwise; either way it answers to `name` whatever its title |
| Matching.KeywordItems | css_tab_mapping.py:315 | Every item the keyword loop visits is a keyword hit of the same keywords: a list yields its items, a string its one-character substrings |
| Matching.MergeKeywords | css_tab_mapping.py:315-317 | The keyword append fails exactly when the target is a string and some item is not already a substring of it. When it succeeds, the result has every item and every earlier hit, a list only grows at its end, and a string stays as it was |
| Matching.MergeIdentityCovers | css_tab_mapping.py:307-317 | After a merge, the survivor matches every remote tab either tab matched, answers every name the survivor answered to, and answers every name the absorbed tab answered to except substrings of a keyword string |
| Matching.MergeIdentityGrowsAndCovers | css_tab_mapping.py:307-317 | A successful merge only appends to the survivor's lists and leaves it holding every pattern, URL part and keyword item of the absorbed tab |
| Matching.MergeIdentityNoDup | css_tab_mapping.py:307-317 | A successful merge adds no duplicate to a survivor whose lists had none |
| Matching.MergeIdentityDrawn | css_tab_mapping.py:307-317 | Every entry of the merged rules was the survivor's or the absorbed tab's |
| Matching.DrawnFromChain | css_tab_mapping.py:299-320 | Entries drawn from a tab whose own entries were drawn from earlier tabs were drawn from those earlier tabs, or from that tab's start |
| Matching.HalfMergeGrows | css_tab_mapping.py:307-317 | A merge stopped at the keyword append has still appended the absorbed tab's missing patterns and URL parts to the survivor: it only grew, holds them all, took nothing from elsewhere and gained no duplicate |
| Matching.CoversAfterGrowth | css_tab_mapping.py:299-320 | A survivor that gains more rules in later merges still covers every tab merged into it earlier |
| Transaction.Inject | css_tab_mapping.py:171-174 | `inject_css` adds exactly the fresh id, with its CSS, and keeps the other entries and `pending_remove` |
| Transaction.Remove | css_tab_mapping.py:176-182 | `remove_css` of an uncommitted id deletes only that key and keeps `pending_remove`; for any other id it keeps `pending_add` and appends exactly that id at the end of `pending_remove` |
| Transaction.InjectThenRemove | css_tab_mapping.py:171-182 | Removing an id right after injecting it restores both buffers |
| Transaction.InjectThenRemoveFromEmpty | css_tab_mapping.py:171-182 | On empty buffers, inject then remove leaves nothing to commit |
| Transaction.ApplyPayload | css_tab_mapping.py:44-65 | After the script runs, an id has a style node exactly when it had one or was added, and was not removed; an existing node keeps its CSS and a new one gets the added CSS |
| Transaction.ApplyPayloadIdempotent | css_tab_mapping.py:44-71 | Running the same payload twice gives the page that one run gives, so a retried attempt that already took effect changes nothing |
| Transaction.RemovedIdLeavesPage | css_tab_mapping.py:176-182 | An id that `remove_css` queued because it was no longer pending is gone from the page after the next commit's payload runs, whatever else the buffers hold |
| Transaction.InjectedIdReachesPage | css_tab_mapping.py:171-174 | CSS injected under an id not queued for removal is on the page once the payload runs: with the new text, or the earlier text when a node with that id already existed |
| Transaction.CommitAfterRemoveAll | css_tab_mapping.py:78-97 | After the remove-everything script, a commit leaves on the page exactly the added styles whose ids were not also queued for removal |
| Transaction.RetryOutcomeSpec | css_tab_mapping.py:67-76 | The retry loop succeeds exactly when one of the first `retry` attempts succeeds, and stops at the first success. Otherwise it fails with "Css Commit Retry Count Exceeded" after exactly `retry` attempts, or none when `retry <= 0` |
| Transaction.RunRetries | css_tab_mapping.py:67-76 | The `while retry > 0` loop, with `retry` decremented before each attempt, computes `RetryOutcome` |
| Tabs.Tab.constructor | css_tab_mapping.py:17-25 | A new tab has the given rules, no remote tab, no merge pointer and empty buffers |
| Tabs.Tab.GetName | css_tab_mapping.py:126-130 | The name is present exactly when a remote tab is attached, and it is that tab's title |
| Tabs.Tab.InjectCss | css_tab_mapping.py:171-174 | Returns the caller's fresh id and updates the buffers as `Inject` does |
| Tabs.Tab.RemoveCss | css_tab_mapping.py:176-182 | Updates the buffers as `Remove` does |
| Tabs.Tab.CommitCssTransaction | css_tab_mapping.py:27-76 | Both buffers end empty whatever the outcome. Empty buffers succeed with no attempt and nothing sent. Otherwise the snapshot is sent as one payload, and the result and attempt count are those of the retry loop |
| Tabs.Tab.RemoveAllCss | css_tab_mapping.py:78-97 | Both buffers end empty, and the result and attempt count are those of the retry loop |
| Tabs.Tab.AddPattern | css_tab_mapping.py:245-246 | The pattern is appended unless already present; the earlier patterns stay in front |
| Tabs.Tab.MergeInto | css_tab_mapping.py:305-317 | The tab is pointed at `y`; `y`'s patterns and URL parts take the missing entries in order. It succeeds exactly when the keyword merge succeeds, and then `y` holds the merged rules; otherwise `y`'s keywords are unchanged |
| Mappings.ParseMappingLine | css_tab_mapping.py:231-239 | A stripped comment or blank line is ignored. A line without exactly one `:` is malformed. Otherwise the query and pattern around the single `:` rebuild the stripped line |
| Mappings.NoColonIsMalformed | css_tab_mapping.py:236-239 | A non-comment line with no `:` is rejected as an invalid entry |
| Text.ContainsIff | css_tab_mapping.py:7 | Python's `sub in s` on strings holds exactly when `sub` occurs at some position of `s` |
| Text.StripSpec | css_tab_mapping.py:232 | `strip()` returns a slice of the line with only whitespace cut off before and after it, and with no whitespace at either of its own ends |
| Text.SplitSpec | css_tab_mapping.py:236 | `split(":")` yields one part more than there are colons; no part holds a colon, and joining the parts with `:` gives back the line |
| Common.UnionIntoKeepsPrefix | css_tab_mapping.py:284-289 | The append-if-absent loop keeps the list it starts from at the front |
| Common.UnionIntoElements | css_tab_mapping.py:284-289 | After the append-if-absent loop, the list holds exactly the elements of both lists |
| Common.UnionIntoNoDup | css_tab_mapping.py:307-317 | The append-if-absent loop adds no duplicate to a duplicate-free list |
| Common.UnionIntoConcat | css_tab_mapping.py:284-289 | Running the loop over one list and then over another is running it once over their concatenation |
| Common.UnionIntoFirstSeenOrder | css_tab_mapping.py:284-289 | Starting from an empty list, elements are listed in the order in which they are first seen |
| Common.AppendNew | css_tab_mapping.py:307-317 | The append-if-absent loop computes `UnionInto` |
| Common.RemoveFirstFromWithout | css_tab_mapping.py:319 | On a duplicate-free cache, `list.remove(x)` of a tab still present is the same as filtering it out along with every tab removed before |
| Registry.MatchesOf | css_tab_mapping.py:258-260 | The tabs that answer to the name are exactly the cached tabs for which `compare` holds |
| Registry.Live | css_tab_mapping.py:297 | The scan list of `optimize_tabs` holds exactly the cached tabs that are connected and report a name |
| Registry.TabCache.FindMatches | css_tab_mapping.py:256-260 | The lookup loop returns exactly the matching tabs, in cache order |
| Registry.TabCache.GetTab | css_tab_mapping.py:254-272 | On a hit, returns exactly the matching tabs in cache order and leaves the cache unchanged. On a miss, appends one new tab with `NewTabIdentity(name)` and returns it. Afterwards the tabs that answer to the name are exactly the returned ones |
| Registry.TabCache.GetTabTwice | css_tab_mapping.py:254-272 | A second `get_tab` with the same name returns what the first returned. Over both calls the cache grows by the first call's one new tab on a miss, and not at all on a hit |
| Registry.TabCache.GetSingleTab | css_tab_mapping.py:274-280 | Returns the only matching tab, `None` when two or more match, and the newly created tab on a miss |
| Registry.TabCache.GetTabs | css_tab_mapping.py:282-289 | Returns the concatenated `get_tab` results with repeats dropped, in first-seen order. The k-th call took the cache from `lens[k]` to `lens[k + 1]` tabs: unchanged on a hit, one new `NewTabIdentity` tab with no remote tab on a miss. The cache starts at `lens[0]` tabs and ends at exactly the last length. The k-th result is every tab answering to the k-th name among the first `lens[k + 1]` tabs. So every cached tab answering to some name is returned, and so is every tab created on the way |
| Registry.TabCache.GetTabsRound | css_tab_mapping.py:284-287 | One round of `get_tabs` extends the record by one call whose cache lengths follow the previous ones, and keeps the result the repeat-free union of all results so far |
| Registry.TabCache.GetTabsStep | css_tab_mapping.py:285-287 | One `get_tab` call followed by the append-if-absent loop: the call returns every tab answering to the name, moves the cache as `GetTabStep` says, and the loop adds its results to the list as `UnionInto` does |
| Registry.TabCache.GetTabAsStep | css_tab_mapping.py:254-272 | `get_tab` seen as one step of `get_tabs`: it returns every tab answering to the name; the cache is unchanged on a hit or gains exactly the one returned new tab, as `GetTabStep` says |
| Registry.TabCache.GetTabKeepingRecord | css_tab_mapping.py:254-272 | The same call leaves the tabs cached before it alone, so the record of the earlier calls of `get_tabs` still holds |
| Registry.GetTabsReturns | css_tab_mapping.py:282-289 | Once every name has had its call, the result holds each tab any call got exactly once and nothing else, and so every tab cached at the start that answers to a name |
| Registry.HitStep | css_tab_mapping.py:258-262 | A name some cached tab answers to leaves the cache length unchanged |
| Registry.MissStep | css_tab_mapping.py:262-270 | A name no cached tab answers to grows the cache by exactly one tab with `NewTabIdentity(name)`, no remote tab, no merge pointer and empty buffers |
| Registry.RecordedNext | css_tab_mapping.py:284-287 | The record of the earlier calls survives the cache growing at its end, and is extended by the call just made with its result and its new cache length |
| Registry.RecordedCovers | css_tab_mapping.py:258-260 | A tab already cached when `get_tabs` started and answering to one of the names is in that name's `get_tab` result |
| Registry.Answering | css_tab_mapping.py:258-260 | For tabs without a remote tab, the positions of the tabs whose rules answer to the name: every such position, in increasing order, and no other |
| Registry.MatchesOfAnswering | css_tab_mapping.py:258-260 | For tabs without a remote tab, the tabs `get_tab` collects are exactly those at the positions `Answering` finds in their rules, in the same order |
| Registry.TabCache.ApplyRule | css_tab_mapping.py:241-246 | The cache's rules become `RuleSpec` of the rules before: with one tab answering to the query the pattern is added to it, on a miss the tab `get_tab` created gets it, and with two or more a new tab holds the pattern and the query string as its keywords. The cache only grows by new tabs, none with a remote tab, a merge pointer or buffered changes |
| Registry.TabCache.LookUpRule | css_tab_mapping.py:241 | `get_single_tab` on a cache of tabs without a remote tab, in terms of `Answering`: the one answering tab, `None` with two or more, or a tab with `NewTabIdentity(query)` appended on a miss |
| Registry.TabCache.GrowRule | css_tab_mapping.py:245-246 | Adding a pattern to the cached tab at one position changes that tab's rules as `WithPattern` does and no other tab's |
| Registry.TabCache.AppendRuleTab | css_tab_mapping.py:242-243 | Appends one new tab whose rules are the pattern, no URL parts and the query string as keywords |
| Registry.RuleSpecGrows | css_tab_mapping.py:241-246 | A rule line changes no tab's URL parts or keywords and only adds to the end of patterns, and changes a tab at all only when that tab is the one tab answering to the query |
| Registry.RuleSpecLands | css_tab_mapping.py:241-246 | After a rule line, some tab holds the pattern and answers to the query |
| Registry.WithPatternCompares | css_tab_mapping.py:245-246 | A tab that answers to a name still does after gaining a pattern |
| Registry.TabCache.LoadLine | css_tab_mapping.py:231-248 | A line changes the rules as `LineSpec` says: a rule line as `RuleSpec`, any other line not at all |
| Registry.RuleLineLands | css_tab_mapping.py:231-246 | After a well-formed rule line, some tab holds its pattern and answers to its query |
| Registry.LoadSpecKeepsDefaults | css_tab_mapping.py:221-246 | However many lines are read, the three built-in tabs stay first with their URL parts and keywords, and their built-in patterns stay at the front of their pattern lists |
| Registry.LoadSpecWithoutRules | css_tab_mapping.py:221-239 | A file with no well-formed rule line leaves exactly the three built-in tabs |
| Registry.TabCache.ResetToDefaults | css_tab_mapping.py:221-225 | The cache becomes exactly the three built-in tabs, in order, all new and unattached with empty buffers |
| Registry.TabCache.LoadTabMappings | css_tab_mapping.py:219-252 | The cache's rules are `LoadSpec(lines)`: the built-in tabs with each line applied in order as `LineSpec`. The three built-in tabs come first with their URL parts and keywords and only gain patterns, and every tab is new, with no remote tab, no merge pointer and empty buffers |
| Registry.TabCache.CommitAll | css_tab_mapping.py:324-325 | Each connected tab commits as `CommitCssTransaction` does with a retry count of 3; an unconnected tab is untouched; no tab's rules, remote tab or merge pointer change, with the transport abstracted as under Left out |
| Registry.TabCache.RemoveAll | css_tab_mapping.py:327-328 | Each connected tab empties its buffers and reports the retry loop's outcome with a retry count of 3; an unconnected tab is untouched |
| Registry.TabCache.MergePair | css_tab_mapping.py:305-320 | One merge: `y`'s patterns and URL parts become exactly the append-if-absent union with `x`'s. It succeeds exactly when the keyword merge does, and then `y` holds `MergeIdentity` of the two, covers `x`, and `x` leaves the cache. On the keyword error, `y` holds `HalfMergeIdentity` of the two, with its keywords unchanged, and the cache is unchanged |
| Registry.TabCache.MergeStep | css_tab_mapping.py:300-320 | One comparison of the double loop keeps the merge invariant and settles the pair it visited. The invariant includes two facts: a tab whose rules changed is the one a merged tab points at, and every merged tab points at a tab later in the scan list. On the keyword error it stops with exactly one half-absorbed tab and `StoppedInv` |
| Registry.TabCache.MergeRow | css_tab_mapping.py:300-320 | One pass of the outer loop settles every pair that starts at `items[i]` and keeps the merge invariant, or stops on the keyword error with one half-absorbed tab and `StoppedInv` |
| Registry.TabCache.MergeAll | css_tab_mapping.py:299-320 | Whether the double loop finishes or raises, `StoppedInv` holds. Rules only grow, and every tab keeps its remote tab and buffers. Every merged tab is covered by its survivor. Every entry a tab gained came from a merged tab, and no list gained a duplicate. Only a tab that a merged tab points at changed its rules. Each merged tab points at a tab later in the scan list. When it finishes, every pair is settled and no tab is half absorbed. When it raises, exactly one tab is half absorbed; it counts as merged in these facts and points at a survivor holding its patterns and URL parts |
| Registry.TabCache.OptimizeTabs | css_tab_mapping.py:294-322 | Only tabs whose merge pointer it set are removed. It returns true exactly when it removed a tab. Whether it finishes or raises, a removed tab points at a connected tab of the same name that covers its rules, and only removed and half-absorbed tabs changed their merge pointer. Each removed or half-absorbed tab comes before the tab it points at in the cache as it was at entry, so the earlier tab of a same-name pair is the one dropped. A tab that no removed or half-absorbed tab points at keeps its rules. On the `AttributeError` exactly one tab is half absorbed: still cached and connected, it points at another cached, connected, unmerged tab with its name, which holds its patterns and URL parts but whose keywords could not take its own. Rules only grow, and unconnected tabs are left alone. Every pattern, URL part or keyword a tab gained was held at the start by a removed or half-absorbed tab, and a list without duplicates still has none. When it finishes, no two surviving connected, unmerged tabs share a name |
| Registry.GrowthKeepsState | css_tab_mapping.py:305-317 | Pointing one tab at another while the other only gains rules keeps every tab's remote tab, socket and buffers, and leaves the tabs outside the scan list alone |
| Registry.MergeKeepsInv | css_tab_mapping.py:305-320 | A completed merge keeps the merge invariant, with the absorbed tab counted as removed |
| Registry.MergeKeepsPointers | css_tab_mapping.py:301-317 | After a completed merge, only the absorbed tab changed its merge pointer, every merged tab is covered by its survivor, only survivors took rules, and every merge pointer goes forward in the scan list |
| Registry.MergeKeepsTargets | css_tab_mapping.py:301-317 | After a merge, completed or stopped at the keyword append, a tab whose rules changed is still one that a merged or absorbed tab points at, and every pointer goes forward in the scan list |
| Registry.PrimariesAfterMerge | css_tab_mapping.py:305 | Setting `x.primary_instance = y` adds `y` to the tabs pointed at and keeps every tab pointed at before |
| Registry.MergePointsForward | css_tab_mapping.py:299-305 | Two unmerged tabs with one name meet first as `(x, y)` with `x` earlier in the scan list: the pair the other way round was settled before. So the new pointer, like every earlier one, goes forward |
| Registry.MergeKeepsCovered | css_tab_mapping.py:305-319 | After a merge, the absorbed tab and every tab merged before it point at a tab of the scan list with their name that covers their rules |
| Registry.MergeKeepsForeign | css_tab_mapping.py:305-319 | After a merge, completed or stopped at the keyword append, every tab still holds only entries it started with or that a merged or absorbed tab started with, and gains no duplicate |
| Registry.ForeignAfterMerge | css_tab_mapping.py:307-317 | The same for one tab: the survivor's new entries come from the absorbed tab's, which themselves came from its start or from earlier merged tabs |
| Registry.MergedAfterGrowth | css_tab_mapping.py:305-317 | While the survivor of a merge only gains rules, every tab merged before still points at a tab of its name that covers it |
| Registry.HalfMergeStops | css_tab_mapping.py:305-317 | A merge whose keyword append raises keeps every part of the merge invariant. The absorbed tab is pointed at the survivor but not removed, and counts as a donor and as a pointer |
| Registry.HalfPoints | css_tab_mapping.py:305-317 | On the keyword error only the absorbed tab changed its merge pointer. It points at another unmerged tab of its name, outside the removed tabs, that holds its patterns and URL parts and cannot take its keywords |
| Registry.SkipSettles | css_tab_mapping.py:300-302 | A comparison that merges nothing (same tab, a merged tab, or different names) settles its pair |
| Registry.MergeSettles | css_tab_mapping.py:301-305 | After a merge, every pair of the scan list visited so far has a merged tab in it or differs in name |
| Registry.OptimizeKeeps | css_tab_mapping.py:294-322 | Over a run, whether it finishes or raises, rules only grow, the remote tab, socket and buffers are kept, and unconnected tabs keep their rules and merge pointer |
| Registry.OptimizeMerges | css_tab_mapping.py:299-320 | Wherever the run stops: every merged tab was connected and unmerged, and now points at a connected tab with its name that covers its rules. A half-absorbed tab is still cached and points at a cached, connected, unmerged tab with its name that holds its patterns and URL parts. Every other tab keeps its merge pointer, and every entry a tab gained came from a merged or half-absorbed tab, with no duplicate added |
| Registry.OptimizeTargets | css_tab_mapping.py:297-319 | Wherever the run stops, a cached tab that no merged or half-absorbed tab points at has the rules it started with. Each merged or half-absorbed tab and the tab it points at are both in the starting cache, in that order |
| Registry.LiveKeepsOrder | css_tab_mapping.py:297 | The list comprehension keeps the cache order: of two tabs it keeps, the one it has first also comes first in the cache |
| Registry.LiveSameOrder | css_tab_mapping.py:297 | The same for every pair of kept tabs |
| Registry.OptimizeHalf | css_tab_mapping.py:305-317 | A tab half absorbed when the keyword append raised is still cached and connected and was unmerged; it points at another cached, connected, unmerged tab with its name that holds its patterns and URL parts and cannot take its keywords |
| Registry.OptimizeSettles | css_tab_mapping.py:299-322 | When the run finishes, no two distinct connected, unmerged tabs left in the cache share a name |
| Registry.FlattenHas | css_tab_mapping.py:284-285 | An element is in the concatenated `get_tab` results exactly when it is in one of them |

## Left out

- `connect`, `open`, `close_webhook`, `manage_webhook`, `available`, `has_element`: websocket transport with exception-text matching. A remote tab is a value (`Session`) plus a live-socket flag that callers set.
- `evaluate_js`: each attempt's success is an input list of booleans.
- The 0.2 second `asyncio.sleep` between attempts: timing only.
- `asyncio.gather` in `commit_all` and `remove_all`: the tabs are visited one at a time in cache order. With the transport abstracted as below, each commit touches only its own tab, so the final state is the same.
- The regex engine at line 11: `MatchTab` takes the full-match test as a function parameter.
- `uuid4` at lines 18 and 172: `inject_css` takes the fresh id from its caller. The tab's own `id` is never read and is not modelled; object identity stands for it.
- `get_theme_path`, the existence check, and file reading in `load_tab_mappings`: the file's lines are an input, empty when the file is missing.
- `Log`: output only.
- The embedded JavaScript and its JSON encoding: only the payload's data, and its effect on a map from style id to CSS, are modelled.
- `Transaction.PayloadOf`: add entries are a map, so the order of the `add` array is not modelled.
- `Tabs.Tab.CommitCssTransaction`, `Tabs.Tab.RemoveAllCss`, `Registry.TabCache.CommitAll`, `Registry.TabCache.RemoveAll`: each attempt's effect on the transport is not modelled. In the source, every attempt goes through `evaluate_js`, then `manage_webhook`, `open` and `connect` (lines 201-203, 153-154, 140, 119), which can attach a different remote tab. A "Cannot write to closing transport" failure clears the websocket (lines 211-212, 164). So "the remote tab is unchanged" and "each commit touches only its own tab" hold only under this abstraction.
- `Tabs.Tab.CommitCssTransaction`, `Tabs.Tab.RemoveAllCss`: each runs as one atomic step. In the source, the awaits at lines 69 and 74 let another task's `inject_css` or `remove_css` land in the freshly cleared buffers, so "both buffers end empty" holds only when no such call interleaves.
- Python's shared mutable default arguments at line 17: each `Tab` owns its own lists. In the source, tabs created with a default `name_mappings`, `url_parts` or `extra_keywords` share one list per parameter. `Tab(url_parts=[...])` at line 265 shares the default `name_mappings` list, and a later append to its patterns is seen by every such tab. That append can come from `load_tab_mappings` at line 246, when the query was a `~x~` name that missed, or from `optimize_tabs`. The model does not capture that sharing.
- `get_cached_tabs`: it returns the cache itself, which is the `tabs` field.
- `Registry.TabCache.OptimizeTabs`: that no two surviving connected, unmerged tabs share a name is stated only for a run that finishes. After the `AttributeError` the double loop has not visited every pair.
- `Registry.TabCache.CommitAll`, `Registry.TabCache.RemoveAll`: the outcome oracle for each tab must hold at least three entries, one per possible attempt.
