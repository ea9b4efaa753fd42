/** The process-wide tab cache `CSS_LOADER_TAB_CACHE` and the functions that look
    tabs up in it, create them on a miss, load the mapping file and merge duplicates. */
module Registry {
  import opened Common
  import opened Matching
  import opened Transaction
  import opened Tabs
  import opened Mappings
  import opened Text

  /** The cached tabs that answer to `name`, in cache order. */
  function MatchesOf(ts: seq<Tab>, name: string): (r: seq<Tab>)
    reads ts
    ensures forall t :: t in r ==> t in ts && t.Compare(name)
    ensures forall t :: t in ts && t.Compare(name) ==> t in r
    ensures |r| <= |ts|
  {
    if ts == [] then []
    else
      var last := ts[|ts| - 1];
      MatchesOf(ts[..|ts| - 1], name) + (if last.Compare(name) then [last] else [])
  }

  /** The tabs `optimize_tabs` walks over: the cached tabs that are connected and report
      a name, in cache order. */
  function Live(ts: seq<Tab>): (r: seq<Tab>)
    reads ts
    ensures forall t :: t in r ==> t in ts && t.IsConnected() && t.GetName().Some?
    ensures forall t :: t in ts && t.IsConnected() && t.GetName().Some? ==> t in r
  {
    if ts == [] then []
    else
      var last := ts[|ts| - 1];
      Live(ts[..|ts| - 1]) + (if last.IsConnected() && last.GetName().Some? then [last] else [])
  }

  /** Of two tabs of `xs` that are in `ys`, the one that `xs` has first also comes
      first in `ys`. */
  ghost predicate SameOrder(xs: seq<Tab>, ys: seq<Tab>) {
    forall t, u :: t in xs && u in xs && t in ys && u in ys && FirstIndex(xs, t) < FirstIndex(xs, u) ==>
      FirstIndex(ys, t) < FirstIndex(ys, u)
  }

  /** `Live` keeps the cache order. */
  lemma LiveSameOrder(ts: seq<Tab>)
    ensures SameOrder(Live(ts), ts)
  {
    forall t, u | t in Live(ts) && u in Live(ts) && FirstIndex(Live(ts), t) < FirstIndex(Live(ts), u)
      ensures FirstIndex(ts, t) < FirstIndex(ts, u)
    {
      LiveKeepsOrder(ts, t, u);
    }
  }

  lemma {:induction false} LiveKeepsOrder(ts: seq<Tab>, t: Tab, u: Tab)
    requires t in Live(ts) && u in Live(ts) && FirstIndex(Live(ts), t) < FirstIndex(Live(ts), u)
    ensures t in ts && u in ts && FirstIndex(ts, t) < FirstIndex(ts, u)
    decreases |ts|
  {
    var init := ts[..|ts| - 1];
    var front, r := Live(init), Live(ts);
    assert r[..|front|] == front && ts[..|init|] == init;
    if u in front {
      var ku := FirstIndex(r, u);
      FirstIndexOfPrefix(r, |front|, u);
      var kt := FirstIndex(r, t);
      assert r[..|front|][kt] == t;
      FirstIndexOfPrefix(r, |front|, t);
      LiveKeepsOrder(init, t, u);
      FirstIndexOfPrefix(ts, |init|, t);
      FirstIndexOfPrefix(ts, |init|, u);
    } else {
      assert u == ts[|ts| - 1] && u !in init;
      assert r[..|front|][FirstIndex(r, t)] == t;
      assert t in init;
      FirstIndexOfPrefix(ts, |init|, t);
    }
  }

  /** A tab's state at one point of `optimize_tabs`: its rules, remote tab, socket,
      buffers and `primary_instance`. */
  datatype Snap = Snap(rules: Identity, handle: Option<Session>, socketLive: bool,
                       buffers: Pending, primary: Tab?)

  function SnapOf(t: Tab): Snap
    reads t
  {
    Snap(t.Rules(), t.handle, t.socketLive, t.Buffers(), t.primary)
  }

  /** The states of all the tabs of `ts`, keyed by tab. */
  ghost function SnapAll(ts: seq<Tab>): (m: map<Tab, Snap>)
    reads ts
    ensures forall t :: t in ts ==> t in m && m[t] == SnapOf(t)
  {
    map t | t in ts :: SnapOf(t)
  }

  /** `get_name` of a recorded state. */
  function NameOf(s: Snap): Option<string> {
    match s.handle
    case None => None
    case Some(r) => Some(r.title)
  }

  /** Every pair of distinct tabs of `items` that the double loop of `optimize_tabs` has
      visited before position `(i, j)` has a merged tab in it or differs in name, in
      the states `cur`. */
  ghost predicate Settled(items: seq<Tab>, cur: map<Tab, Snap>, i: int, j: int)
    requires forall t :: t in items ==> t in cur
  {
    forall p, q :: 0 <= p < |items| && 0 <= q < |items| && (p < i || (p == i && q < j))
                   && items[p] != items[q] && cur[items[p]].primary == null && cur[items[q]].primary == null
                   ==> NameOf(cur[items[p]]) != NameOf(cur[items[q]])
  }

  /** No tab of `orig` lost a rule or changed its remote tab, socket or buffers between
      the states `snap` and `cur`. */
  ghost predicate StateKept(orig: seq<Tab>, snap: map<Tab, Snap>, cur: map<Tab, Snap>)
    requires forall t :: t in orig ==> t in snap && t in cur
  {
    forall t :: t in orig ==>
      && RulesGrew(snap[t].rules, cur[t].rules)
      && cur[t].handle == snap[t].handle && cur[t].socketLive == snap[t].socketLive
      && cur[t].buffers == snap[t].buffers
  }

  /** Tabs outside `items` are as they were. */
  ghost predicate OutsideUntouched(orig: seq<Tab>, snap: map<Tab, Snap>, cur: map<Tab, Snap>, items: seq<Tab>)
    requires forall t :: t in orig ==> t in snap && t in cur
  {
    forall t :: t in orig && t !in items ==> cur[t].rules == snap[t].rules && cur[t].primary == snap[t].primary
  }

  /** Only the tabs in `removed` changed their `primary_instance`. */
  ghost predicate PrimaryKept(orig: seq<Tab>, snap: map<Tab, Snap>, cur: map<Tab, Snap>, removed: set<Tab>)
    requires forall t :: t in orig ==> t in snap && t in cur
  {
    forall t :: t in orig && t !in removed ==> cur[t].primary == snap[t].primary
  }

  /** Each tab in `removed` was unmerged, and now points at a tab of `items` with the
      same name whose rules cover its own. */
  ghost predicate MergedCovered(snap: map<Tab, Snap>, cur: map<Tab, Snap>, items: seq<Tab>, removed: set<Tab>)
    requires forall t :: t in items ==> t in snap && t in cur
  {
    forall t :: t in removed ==>
      && t in items && snap[t].primary == null
      && cur[t].primary != null && cur[t].primary in items
      && NameOf(cur[cur[t].primary]) == NameOf(cur[t])
      && Covers(cur[cur[t].primary].rules, cur[t].rules)
  }

  /** The rules the tabs of `from` had in the states `snap`. */
  ghost function RulesOf(snap: map<Tab, Snap>, from: set<Tab>): set<Identity>
    requires forall s :: s in from ==> s in snap
  {
    set s | s in from :: snap[s].rules
  }

  /** Every tab of `orig` holds only rules it had in the states `snap` or that a tab of
      `removed` had there, and a tab whose lists held no duplicates still holds none. */
  ghost predicate NothingForeign(orig: seq<Tab>, snap: map<Tab, Snap>, cur: map<Tab, Snap>, removed: set<Tab>)
    requires forall t :: t in orig ==> t in snap && t in cur
    requires forall s :: s in removed ==> s in snap
  {
    forall t :: t in orig ==>
      && DrawnFrom(cur[t].rules, snap[t].rules, RulesOf(snap, removed))
      && (ListsNoDup(snap[t].rules) ==> ListsNoDup(cur[t].rules))
  }

  /** The tabs that the tabs of `pointers` point at in the states `cur`. */
  ghost function PrimariesOf(cur: map<Tab, Snap>, pointers: set<Tab>): set<Tab?>
  {
    set s | s in pointers && s in cur :: cur[s].primary
  }

  /** Only a survivor takes rules: a tab of `orig` that no tab of `pointers` points at
      has the rules it had in the states `snap`. */
  ghost predicate OnlySurvivorsGrew(orig: seq<Tab>, snap: map<Tab, Snap>, cur: map<Tab, Snap>, pointers: set<Tab>)
    requires forall t :: t in orig ==> t in snap && t in cur
  {
    forall t :: t in orig && t !in PrimariesOf(cur, pointers) ==> cur[t].rules == snap[t].rules
  }

  /** Each tab of `pointers` points at a tab that comes after it in `items`. */
  ghost predicate PointsForward(items: seq<Tab>, cur: map<Tab, Snap>, pointers: set<Tab>)
    requires forall t :: t in items ==> t in cur
  {
    forall t :: t in pointers ==>
      t in items && cur[t].primary in items && FirstIndex(items, t) < FirstIndex(items, cur[t].primary)
  }

  /** What `optimize_tabs` keeps true between the states `snap` it started from and the
      states `cur` it has reached, where `removed` are the tabs merged so far. */
  ghost predicate MergeInv(orig: seq<Tab>, snap: map<Tab, Snap>, cur: map<Tab, Snap>,
                           items: seq<Tab>, removed: set<Tab>)
  {
    && (forall t :: t in items ==> t in orig)
    && (forall t :: t in orig ==> t in snap && t in cur)
    && StateKept(orig, snap, cur)
    && OutsideUntouched(orig, snap, cur, items)
    && PrimaryKept(orig, snap, cur, removed)
    && MergedCovered(snap, cur, items, removed)
    && NothingForeign(orig, snap, cur, removed)
    && OnlySurvivorsGrew(orig, snap, cur, removed)
    && PointsForward(items, cur, removed)
  }

  /** The states after `x` is pointed at `y` and `y` is given the rules `rules`. */
  function AfterMerge(cur: map<Tab, Snap>, x: Tab, y: Tab, rules: Identity): map<Tab, Snap>
    requires x in cur && y in cur
  {
    cur[x := cur[x].(primary := y)][y := cur[y].(rules := rules)]
  }

  /** Pointing `items[i]` at `items[j]` while `items[j]` only gains rules keeps every tab's
      rules, remote tab, socket and buffers as `StateKept` and `OutsideUntouched` ask;
      this holds also when the merge stops half way. */
  lemma {:induction false} GrowthKeepsState(orig: seq<Tab>, snap: map<Tab, Snap>, cur: map<Tab, Snap>,
                                            items: seq<Tab>, removed: set<Tab>, i: int, j: int, rules: Identity)
    requires (forall t :: t in items ==> t in orig) && (forall t :: t in orig ==> t in snap && t in cur)
    requires StateKept(orig, snap, cur) && OutsideUntouched(orig, snap, cur, items)
    requires 0 <= i < |items| && 0 <= j < |items| && items[i] != items[j]
    requires RulesGrew(cur[items[j]].rules, rules)
    ensures forall t :: t in orig ==> t in AfterMerge(cur, items[i], items[j], rules)
    ensures StateKept(orig, snap, AfterMerge(cur, items[i], items[j], rules))
    ensures OutsideUntouched(orig, snap, AfterMerge(cur, items[i], items[j], rules), items)
  {
    var x, y := items[i], items[j];
    var next := AfterMerge(cur, x, y, rules);
    forall t | t in orig ensures RulesGrew(snap[t].rules, next[t].rules) {
      if t == y {
        RulesGrewTrans(snap[t].rules, cur[t].rules, rules);
      } else {
        assert next[t].rules == cur[t].rules;
      }
    }
  }

  /** A completed merge of `items[i]` into `items[j]` keeps `MergeInv` with `items[i]`
      counted as merged. */
  lemma {:induction false} MergeKeepsInv(orig: seq<Tab>, snap: map<Tab, Snap>, cur: map<Tab, Snap>,
                                         items: seq<Tab>, removed: set<Tab>, i: int, j: int, rules: Identity)
    requires MergeInv(orig, snap, cur, items, removed)
    requires 0 <= i < |items| && 0 <= j < |items| && items[i] != items[j]
    requires cur[items[i]].primary == null && cur[items[j]].primary == null
    requires NameOf(cur[items[i]]) == NameOf(cur[items[j]])
    requires MergeIdentity(cur[items[i]].rules, cur[items[j]].rules) == Some(rules)
    requires Settled(items, cur, i, j)
    ensures MergeInv(orig, snap, AfterMerge(cur, items[i], items[j], rules), items, removed + {items[i]})
  {
    var x, y := items[i], items[j];
    var next := AfterMerge(cur, x, y, rules);
    MergeIdentityGrowsAndCovers(cur[x].rules, cur[y].rules);
    GrowthKeepsState(orig, snap, cur, items, removed, i, j, rules);
    MergeIdentityDrawn(cur[x].rules, cur[y].rules);
    if ListsNoDup(cur[y].rules) {
      MergeIdentityNoDup(cur[x].rules, cur[y].rules);
    }
    MergeKeepsForeign(orig, snap, cur, items, removed, i, j, rules);
    MergeKeepsPointers(orig, snap, cur, items, removed, i, j, rules);
  }

  /** The part of `MergeKeepsInv` about merge pointers and the tabs they point at. */
  lemma {:induction false} MergeKeepsPointers(orig: seq<Tab>, snap: map<Tab, Snap>, cur: map<Tab, Snap>,
                                              items: seq<Tab>, removed: set<Tab>, i: int, j: int, rules: Identity)
    requires (forall t :: t in items ==> t in orig) && (forall t :: t in orig ==> t in snap && t in cur)
    requires PrimaryKept(orig, snap, cur, removed) && MergedCovered(snap, cur, items, removed)
    requires OnlySurvivorsGrew(orig, snap, cur, removed) && PointsForward(items, cur, removed)
    requires 0 <= i < |items| && 0 <= j < |items| && items[i] != items[j]
    requires cur[items[i]].primary == null && cur[items[j]].primary == null
    requires NameOf(cur[items[i]]) == NameOf(cur[items[j]])
    requires MergeIdentity(cur[items[i]].rules, cur[items[j]].rules) == Some(rules)
    requires Settled(items, cur, i, j)
    ensures var next := AfterMerge(cur, items[i], items[j], rules);
            && PrimaryKept(orig, snap, next, removed + {items[i]})
            && MergedCovered(snap, next, items, removed + {items[i]})
            && OnlySurvivorsGrew(orig, snap, next, removed + {items[i]})
            && PointsForward(items, next, removed + {items[i]})
  {
    assert items[i] !in removed;
    MergeKeepsCovered(orig, snap, cur, items, removed, i, j, rules);
    MergeKeepsTargets(orig, snap, cur, items, removed, i, j, rules);
  }

  /** Pointing `items[i]` at `items[j]`, while only `items[j]` takes rules, keeps every
      tab that took rules a survivor, and every pointer forward in `items`. */
  lemma {:induction false} MergeKeepsTargets(orig: seq<Tab>, snap: map<Tab, Snap>, cur: map<Tab, Snap>,
                                             items: seq<Tab>, removed: set<Tab>, i: int, j: int, rules: Identity)
    requires (forall t :: t in items ==> t in orig) && (forall t :: t in orig ==> t in snap && t in cur)
    requires OnlySurvivorsGrew(orig, snap, cur, removed) && PointsForward(items, cur, removed)
    requires 0 <= i < |items| && 0 <= j < |items| && items[i] != items[j] && items[i] !in removed
    requires cur[items[i]].primary == null && cur[items[j]].primary == null
    requires NameOf(cur[items[i]]) == NameOf(cur[items[j]])
    requires Settled(items, cur, i, j)
    ensures OnlySurvivorsGrew(orig, snap, AfterMerge(cur, items[i], items[j], rules), removed + {items[i]})
    ensures PointsForward(items, AfterMerge(cur, items[i], items[j], rules), removed + {items[i]})
  {
    var x, y := items[i], items[j];
    var next := AfterMerge(cur, x, y, rules);
    PrimariesAfterMerge(cur, removed, x, y, rules);
    forall t | t in orig && t !in PrimariesOf(next, removed + {x}) ensures next[t].rules == snap[t].rules {
      assert t != y && t !in PrimariesOf(cur, removed);
    }
    MergePointsForward(items, cur, removed, i, j, rules);
  }

  /** Pointing `x` at `y` adds `y` to the tabs pointed at and keeps every other. */
  lemma PrimariesAfterMerge(cur: map<Tab, Snap>, removed: set<Tab>, x: Tab, y: Tab, rules: Identity)
    requires x in cur && y in cur && x != y && x !in removed
    ensures PrimariesOf(cur, removed) + {y} <= PrimariesOf(AfterMerge(cur, x, y, rules), removed + {x})
  {
    var next := AfterMerge(cur, x, y, rules);
    assert x in removed + {x} && next[x].primary == y;
    forall t | t in PrimariesOf(cur, removed) ensures t in PrimariesOf(next, removed + {x}) {
      var s: Tab :| s in removed && s in cur && cur[s].primary == t;
      assert s != x && s in removed + {x} && s in next && next[s].primary == t;
    }
  }

  /** Two unmerged tabs sharing a name at `(i, j)` of the double loop come in that order
      in `items`, since the pair the other way round is settled; so the pointer from
      `items[i]` to `items[j]` goes forward, as every pointer before it. */
  lemma {:induction false} MergePointsForward(items: seq<Tab>, cur: map<Tab, Snap>, removed: set<Tab>,
                                              i: int, j: int, rules: Identity)
    requires forall t :: t in items ==> t in cur
    requires PointsForward(items, cur, removed)
    requires 0 <= i < |items| && 0 <= j < |items| && items[i] != items[j] && items[i] !in removed
    requires cur[items[i]].primary == null && cur[items[j]].primary == null
    requires NameOf(cur[items[i]]) == NameOf(cur[items[j]])
    requires Settled(items, cur, i, j)
    ensures PointsForward(items, AfterMerge(cur, items[i], items[j], rules), removed + {items[i]})
  {
    var x, y := items[i], items[j];
    var next := AfterMerge(cur, x, y, rules);
    var p, q := FirstIndex(items, x), FirstIndex(items, y);
    assert p != q;
    assert p <= i && q <= j;
    assert p < q;
    forall t | t in removed + {x}
      ensures t in items && next[t].primary in items && FirstIndex(items, t) < FirstIndex(items, next[t].primary)
    {
      if t != x {
        assert next[t].primary == cur[t].primary;
      }
    }
  }

  /** The part of `MergeKeepsInv` about the merged tabs: `items[i]` joins them, pointing
      at `items[j]`, and every tab merged before still points at a tab covering it. */
  lemma {:induction false} MergeKeepsCovered(orig: seq<Tab>, snap: map<Tab, Snap>, cur: map<Tab, Snap>,
                                             items: seq<Tab>, removed: set<Tab>, i: int, j: int, rules: Identity)
    requires (forall t :: t in items ==> t in orig) && (forall t :: t in orig ==> t in snap && t in cur)
    requires PrimaryKept(orig, snap, cur, removed) && MergedCovered(snap, cur, items, removed)
    requires 0 <= i < |items| && 0 <= j < |items| && items[i] != items[j]
    requires cur[items[i]].primary == null && cur[items[j]].primary == null
    requires NameOf(cur[items[i]]) == NameOf(cur[items[j]])
    requires MergeIdentity(cur[items[i]].rules, cur[items[j]].rules) == Some(rules)
    ensures MergedCovered(snap, AfterMerge(cur, items[i], items[j], rules), items, removed + {items[i]})
  {
    var x, y := items[i], items[j];
    var next := AfterMerge(cur, x, y, rules);
    MergeIdentityGrowsAndCovers(cur[x].rules, cur[y].rules);
    MergedAfterGrowth(snap, cur, items, removed, x, y, rules);
    forall t | t in removed + {x}
      ensures t in items && snap[t].primary == null
      ensures next[t].primary != null && next[t].primary in items
      ensures NameOf(next[next[t].primary]) == NameOf(next[t])
      ensures Covers(next[next[t].primary].rules, next[t].rules)
    {
      if t == x {
        assert x !in removed;
      }
    }
  }

  /** Pointing the unmerged `x` at the unmerged `y` while `y` only gains rules leaves
      every tab merged before pointing at a tab that still covers it. */
  lemma {:induction false} MergedAfterGrowth(snap: map<Tab, Snap>, cur: map<Tab, Snap>, items: seq<Tab>,
                                             removed: set<Tab>, x: Tab, y: Tab, rules: Identity)
    requires forall t :: t in items ==> t in snap && t in cur
    requires MergedCovered(snap, cur, items, removed)
    requires x in items && y in items && x != y && cur[x].primary == null && cur[y].primary == null
    requires RulesGrew(cur[y].rules, rules)
    ensures MergedCovered(snap, AfterMerge(cur, x, y, rules), items, removed)
  {
    var next := AfterMerge(cur, x, y, rules);
    forall t | t in removed
      ensures t in items && snap[t].primary == null
      ensures next[t].primary != null && next[t].primary in items
      ensures NameOf(next[next[t].primary]) == NameOf(next[t])
      ensures Covers(next[next[t].primary].rules, next[t].rules)
    {
      assert cur[t].primary != null && t != x && t != y;
      var p := cur[t].primary;
      if p == y {
        CoversAfterGrowth(cur[y].rules, rules, cur[t].rules);
      } else {
        assert next[p].rules == cur[p].rules && next[p].handle == cur[p].handle;
      }
    }
  }

  /** A merge of `items[i]` into `items[j]`, completed or stopped at the keyword append,
      that gives `items[j]` only what either held and no duplicates keeps every tab's
      rules explained, with `items[i]` counting as a donor. */
  lemma MergeKeepsForeign(orig: seq<Tab>, snap: map<Tab, Snap>, cur: map<Tab, Snap>,
                          items: seq<Tab>, removed: set<Tab>, i: int, j: int, rules: Identity)
    requires MergeInv(orig, snap, cur, items, removed)
    requires 0 <= i < |items| && 0 <= j < |items| && items[i] != items[j]
    requires DrawnFrom(rules, cur[items[j]].rules, {cur[items[i]].rules})
    requires ListsNoDup(cur[items[j]].rules) ==> ListsNoDup(rules)
    ensures NothingForeign(orig, snap, AfterMerge(cur, items[i], items[j], rules), removed + {items[i]})
  {
    var x, y := items[i], items[j];
    forall t | t in orig
      ensures DrawnFrom(AfterMerge(cur, x, y, rules)[t].rules, snap[t].rules, RulesOf(snap, removed + {x}))
      ensures ListsNoDup(snap[t].rules) ==> ListsNoDup(AfterMerge(cur, x, y, rules)[t].rules)
    {
      ForeignAfterMerge(snap, cur, removed, x, y, rules, t);
    }
  }

  /** One tab's part of `MergeKeepsForeign`. */
  lemma {:induction false} ForeignAfterMerge(snap: map<Tab, Snap>, cur: map<Tab, Snap>, removed: set<Tab>,
                                             x: Tab, y: Tab, rules: Identity, t: Tab)
    requires x in snap && x in cur && y in snap && y in cur && t in snap && t in cur && x != y
    requires forall s :: s in removed ==> s in snap
    requires DrawnFrom(cur[t].rules, snap[t].rules, RulesOf(snap, removed))
    requires ListsNoDup(snap[t].rules) ==> ListsNoDup(cur[t].rules)
    requires DrawnFrom(cur[x].rules, snap[x].rules, RulesOf(snap, removed))
    requires DrawnFrom(rules, cur[y].rules, {cur[x].rules})
    requires ListsNoDup(cur[y].rules) ==> ListsNoDup(rules)
    ensures DrawnFrom(AfterMerge(cur, x, y, rules)[t].rules, snap[t].rules, RulesOf(snap, removed + {x}))
    ensures ListsNoDup(snap[t].rules) ==> ListsNoDup(AfterMerge(cur, x, y, rules)[t].rules)
  {
    var next := AfterMerge(cur, x, y, rules);
    var donors := RulesOf(snap, removed);
    assert RulesOf(snap, removed + {x}) == donors + {snap[x].rules};
    if t == y {
      DrawnFromChain(rules, cur[y].rules, cur[x].rules, snap[y].rules, snap[x].rules, donors);
    } else {
      assert next[t].rules == cur[t].rules;
      DrawnFromMore(cur[t].rules, snap[t].rules, donors, donors + {snap[x].rules});
    }
  }

  /** After `items[i]` is merged, every pair up to `(i, j)` is settled. */
  lemma {:induction false} MergeSettles(items: seq<Tab>, cur: map<Tab, Snap>, i: int, j: int, rules: Identity)
    requires forall t :: t in items ==> t in cur
    requires Settled(items, cur, i, j) && 0 <= i < |items| && 0 <= j < |items| && items[i] != items[j]
    ensures Settled(items, AfterMerge(cur, items[i], items[j], rules), i, j + 1)
  {
    var next := AfterMerge(cur, items[i], items[j], rules);
    forall p, q | 0 <= p < |items| && 0 <= q < |items| && (p < i || (p == i && q < j + 1))
                  && items[p] != items[q] && next[items[p]].primary == null && next[items[q]].primary == null
      ensures NameOf(next[items[p]]) != NameOf(next[items[q]])
    {
      assert items[p] != items[i];
      assert next[items[p]].primary == cur[items[p]].primary && next[items[p]].handle == cur[items[p]].handle;
      if items[q] != items[i] {
        assert next[items[q]].primary == cur[items[q]].primary && next[items[q]].handle == cur[items[q]].handle;
      }
    }
  }

  /** A comparison that merges nothing settles its pair. */
  lemma {:induction false} SkipSettles(items: seq<Tab>, cur: map<Tab, Snap>, i: int, j: int)
    requires forall t :: t in items ==> t in cur
    requires Settled(items, cur, i, j) && 0 <= i < |items| && 0 <= j < |items|
    requires items[i] == items[j] || cur[items[i]].primary != null || cur[items[j]].primary != null
             || NameOf(cur[items[i]]) != NameOf(cur[items[j]])
    ensures Settled(items, cur, i, j + 1)
  {
    forall p, q | 0 <= p < |items| && 0 <= q < |items| && (p < i || (p == i && q < j + 1))
                  && items[p] != items[q] && cur[items[p]].primary == null && cur[items[q]].primary == null
      ensures NameOf(cur[items[p]]) != NameOf(cur[items[q]])
    {
      if p == i && q == j {
      } else {
        assert p < i || (p == i && q < j);
      }
    }
  }

  /** Each tab of `half` was pointed at a tab of `items` when the keyword append raised:
      it was unmerged and is not in `removed`; it points at another unmerged tab with
      its name, outside `removed`, that holds its patterns and URL parts but could not
      take its keywords. */
  ghost predicate HalfAbsorbed(snap: map<Tab, Snap>, cur: map<Tab, Snap>, items: seq<Tab>,
                               removed: set<Tab>, half: set<Tab>)
    requires forall t :: t in items ==> t in snap && t in cur
  {
    forall x :: x in half ==>
      && x in items && x !in removed && snap[x].primary == null
      && cur[x].primary != null && cur[x].primary in items
      && cur[x].primary != x && cur[x].primary !in removed && cur[cur[x].primary].primary == null
      && NameOf(cur[cur[x].primary]) == NameOf(cur[x])
      && CoversLists(cur[cur[x].primary].rules, cur[x].rules)
      && MergeIdentity(cur[x].rules, cur[cur[x].primary].rules).None?
  }

  /** What holds wherever `optimize_tabs` stops: `MergeInv`, except that the tabs of
      `half` have been pointed at a survivor without leaving the cache. */
  ghost predicate StoppedInv(orig: seq<Tab>, snap: map<Tab, Snap>, cur: map<Tab, Snap>,
                             items: seq<Tab>, removed: set<Tab>, half: set<Tab>)
  {
    && (forall t :: t in items ==> t in orig)
    && (forall t :: t in orig ==> t in snap && t in cur)
    && StateKept(orig, snap, cur)
    && OutsideUntouched(orig, snap, cur, items)
    && PrimaryKept(orig, snap, cur, removed + half)
    && MergedCovered(snap, cur, items, removed)
    && HalfAbsorbed(snap, cur, items, removed, half)
    && NothingForeign(orig, snap, cur, removed + half)
    && OnlySurvivorsGrew(orig, snap, cur, removed + half)
    && PointsForward(items, cur, removed + half)
  }

  /** A finished run stops with no half-merged tab. */
  lemma FinishedStops(orig: seq<Tab>, snap: map<Tab, Snap>, cur: map<Tab, Snap>,
                      items: seq<Tab>, removed: set<Tab>)
    requires MergeInv(orig, snap, cur, items, removed)
    ensures StoppedInv(orig, snap, cur, items, removed, {})
  {
    assert removed + {} == removed;
  }

  /** A merge of `items[i]` into `items[j]` whose keyword append raises leaves
      `items[i]` pointed at `items[j]`, which has taken its patterns and URL parts, and
      keeps every other part of `MergeInv`. */
  lemma {:induction false} HalfMergeStops(orig: seq<Tab>, snap: map<Tab, Snap>, cur: map<Tab, Snap>,
                                          items: seq<Tab>, removed: set<Tab>, i: int, j: int)
    requires MergeInv(orig, snap, cur, items, removed)
    requires 0 <= i < |items| && 0 <= j < |items| && items[i] != items[j]
    requires cur[items[i]].primary == null && cur[items[j]].primary == null
    requires NameOf(cur[items[i]]) == NameOf(cur[items[j]])
    requires MergeIdentity(cur[items[i]].rules, cur[items[j]].rules).None?
    requires Settled(items, cur, i, j)
    ensures var rules := HalfMergeIdentity(cur[items[i]].rules, cur[items[j]].rules);
            StoppedInv(orig, snap, AfterMerge(cur, items[i], items[j], rules), items, removed, {items[i]})
  {
    var x, y := items[i], items[j];
    var rules := HalfMergeIdentity(cur[x].rules, cur[y].rules);
    var next := AfterMerge(cur, x, y, rules);
    HalfMergeGrows(cur[x].rules, cur[y].rules);
    GrowthKeepsState(orig, snap, cur, items, removed, i, j, rules);
    MergeKeepsForeign(orig, snap, cur, items, removed, i, j, rules);
    MergedAfterGrowth(snap, cur, items, removed, x, y, rules);
    HalfPoints(orig, snap, cur, items, removed, i, j);
    MergeKeepsTargets(orig, snap, cur, items, removed, i, j, rules);
  }

  /** The part of `HalfMergeStops` about pointers: `items[i]` is half absorbed and no
      tab outside `removed` moved. */
  lemma {:induction false} HalfPoints(orig: seq<Tab>, snap: map<Tab, Snap>, cur: map<Tab, Snap>,
                                            items: seq<Tab>, removed: set<Tab>, i: int, j: int)
    requires (forall t :: t in items ==> t in orig) && (forall t :: t in orig ==> t in snap && t in cur)
    requires PrimaryKept(orig, snap, cur, removed) && MergedCovered(snap, cur, items, removed)
    requires 0 <= i < |items| && 0 <= j < |items| && items[i] != items[j]
    requires cur[items[i]].primary == null && cur[items[j]].primary == null
    requires NameOf(cur[items[i]]) == NameOf(cur[items[j]])
    requires MergeIdentity(cur[items[i]].rules, cur[items[j]].rules).None?
    ensures var next := AfterMerge(cur, items[i], items[j], HalfMergeIdentity(cur[items[i]].rules, cur[items[j]].rules));
            && PrimaryKept(orig, snap, next, removed + {items[i]})
            && HalfAbsorbed(snap, next, items, removed, {items[i]})
  {
    var x, y := items[i], items[j];
    var rules := HalfMergeIdentity(cur[x].rules, cur[y].rules);
    var next := AfterMerge(cur, x, y, rules);
    HalfMergeGrows(cur[x].rules, cur[y].rules);
    assert x !in removed && y !in removed;
    assert MergeIdentity(next[x].rules, next[y].rules) == MergeIdentity(cur[x].rules, cur[y].rules);
  }

  /** What `optimize_tabs` ends with: it returns whether it removed a tab, or it stops
      with `AttributeError` while appending to a keyword string. */
  datatype OptimizeResult = Finished(changed: bool) | KeywordAppendRaised

  /** The concatenation of the lists in `f`. */
  function Flatten<T>(f: seq<seq<T>>): seq<T> {
    if f == [] then [] else Flatten(f[..|f| - 1]) + f[|f| - 1]
  }

  /** One `get_tab(name)` call that found the cache `ts[..start]` and left it
      `ts[..end]`: a hit adds nothing, and a miss appends one tab with the rules
      `NewTabIdentity(name)`, no remote tab, no merge pointer and no buffered changes. */
  ghost predicate GetTabStep(ts: seq<Tab>, start: int, end: int, name: string)
    reads ts
  {
    && 0 <= start <= end <= |ts|
    && if MatchesOf(ts[..start], name) != [] then end == start
       else
         && end == start + 1
         && ts[start].Rules() == NewTabIdentity(name)
         && ts[start].handle == None && ts[start].primary == null && ts[start].Buffers() == NoPending
  }

  /** A name some cached tab answers to adds no tab. */
  lemma HitStep(ts: seq<Tab>, name: string)
    requires MatchesOf(ts, name) != []
    ensures GetTabStep(ts, |ts|, |ts|, name)
  {
    assert ts[..|ts|] == ts;
  }

  /** A name no cached tab answers to adds the one tab made for it. */
  lemma MissStep(ts: seq<Tab>, made: seq<Tab>, name: string)
    requires MatchesOf(ts, name) == [] && |made| == 1
    requires made[0].Rules() == NewTabIdentity(name)
    requires made[0].handle == None && made[0].primary == null && made[0].Buffers() == NoPending
    ensures GetTabStep(ts + made, |ts|, |ts + made|, name)
  {
    assert (ts + made)[..|ts|] == ts;
  }

  /** The cache lengths around the first `|lens| - 1` calls of `get_tabs`: the cache
      was `lens[0]` tabs long at the start, and call `k` took it from `lens[k]` to
      `lens[k + 1]` tabs as `GetTabStep` says. */
  ghost predicate CallsRecorded(ts: seq<Tab>, names: seq<string>, lens: seq<nat>)
    reads ts
  {
    && 1 <= |lens| <= |names| + 1
    && (forall k :: 0 <= k < |lens| ==> lens[0] <= lens[k] <= |ts|)
    && (forall k :: 0 <= k < |lens| - 1 ==> GetTabStep(ts, lens[k], lens[k + 1], names[k]))
  }

  /** What the first `|found|` calls of `get_tabs` returned: the calls are recorded in
      `lens`, and call `k` got every tab of the cache it left, `ts[..lens[k + 1]]`,
      answering to `names[k]`, which were never none. */
  ghost predicate Recorded(ts: seq<Tab>, names: seq<string>, found: seq<seq<Tab>>, lens: seq<nat>)
    reads ts
  {
    && |found| == |lens| - 1
    && CallsRecorded(ts, names, lens)
    && (forall k :: 0 <= k < |found| ==> found[k] != [] && found[k] == MatchesOf(ts[..lens[k + 1]], names[k]))
  }

  /** A call that took the cache from where the recorded calls left it to its whole
      length extends the record of calls. */
  lemma CallsAppend(ts: seq<Tab>, names: seq<string>, lens: seq<nat>)
    requires CallsRecorded(ts, names, lens) && |lens| <= |names|
    requires GetTabStep(ts, lens[|lens| - 1], |ts|, names[|lens| - 1])
    ensures CallsRecorded(ts, names, lens + [|ts|])
  {
    var lens' := lens + [|ts|];
    forall k | 0 <= k < |lens'| ensures lens'[0] <= lens'[k] <= |ts| {
      if k < |lens| { assert lens'[k] == lens[k]; }
    }
    forall k | 0 <= k < |lens'| - 1 ensures GetTabStep(ts, lens'[k], lens'[k + 1], names[k]) {
      assert lens'[k] == lens[k];
      if k < |lens| - 1 {
        assert lens'[k + 1] == lens[k + 1];
      }
    }
  }

  /** Appending tabs to the cache leaves what earlier calls saw as it was. */
  lemma RecordedGrow(prev: seq<Tab>, ts: seq<Tab>, names: seq<string>, found: seq<seq<Tab>>, lens: seq<nat>)
    requires Recorded(prev, names, found, lens) && prev <= ts
    ensures Recorded(ts, names, found, lens)
  {
    forall k | 0 <= k < |found| ensures found[k] == MatchesOf(ts[..lens[k + 1]], names[k]) {
      assert ts[..lens[k + 1]] == prev[..lens[k + 1]];
    }
    forall k | 0 <= k < |lens| - 1 ensures GetTabStep(ts, lens[k], lens[k + 1], names[k]) {
      assert GetTabStep(prev, lens[k], lens[k + 1], names[k]);
      assert ts[..lens[k]] == prev[..lens[k]];
    }
  }

  /** A call that took the cache `prev` to `ts` and got every tab of `ts` answering to
      the next name extends the record. */
  lemma RecordedNext(prev: seq<Tab>, ts: seq<Tab>, names: seq<string>, found: seq<seq<Tab>>, lens: seq<nat>,
                     got: seq<Tab>)
    requires Recorded(prev, names, found, lens) && prev <= ts && |found| < |names| && lens[|found|] == |prev|
    requires got != [] && got == MatchesOf(ts, names[|found|])
    requires GetTabStep(ts, |prev|, |ts|, names[|found|])
    ensures Recorded(ts, names, found + [got], lens + [|ts|])
  {
    // the calls before this one saw a prefix of the cache that this call leaves alone
    RecordedGrow(prev, ts, names, found, lens);
    RecordedAppend(ts, names, found, lens, got);
  }

  /** A call that got every tab of the whole cache answering to the next name extends
      the record. */
  lemma RecordedAppend(ts: seq<Tab>, names: seq<string>, found: seq<seq<Tab>>, lens: seq<nat>, got: seq<Tab>)
    requires Recorded(ts, names, found, lens) && |found| < |names|
    requires got != [] && got == MatchesOf(ts, names[|found|])
    requires GetTabStep(ts, lens[|lens| - 1], |ts|, names[|found|])
    ensures Recorded(ts, names, found + [got], lens + [|ts|])
  {
    var found', lens' := found + [got], lens + [|ts|];
    CallsAppend(ts, names, lens);
    forall k | 0 <= k < |found'| ensures found'[k] != [] && found'[k] == MatchesOf(ts[..lens'[k + 1]], names[k]) {
      if k < |found| {
        assert found'[k] == found[k] && lens'[k + 1] == lens[k + 1];
      } else {
        assert ts[..lens'[k + 1]] == ts;
      }
    }
  }

  /** What `get_tabs` returns once every name has had its call: each tab any call got,
      once, and so every tab that was cached at the start and answers to a name. */
  lemma GetTabsReturns(prev: seq<Tab>, ts: seq<Tab>, names: seq<string>, found: seq<seq<Tab>>,
                       lens: seq<nat>, r: seq<Tab>)
    requires Recorded(ts, names, found, lens) && |found| == |names| && prev <= ts && lens[0] == |prev|
    requires r == UnionInto([], Flatten(found))
    ensures NoDup(r) && forall t :: t in r <==> exists k :: 0 <= k < |names| && t in found[k]
    ensures forall k, t :: 0 <= k < |names| && t in prev && t.Compare(names[k]) ==> t in r
  {
    UnionIntoNoDup([], Flatten(found));
    UnionIntoHas([], Flatten(found));
    FlattenHasAll(found);
    RecordedCovers(prev, ts, names, found, lens);
  }

  /** Once every name has had its call, every tab that was in the cache at the start
      and answers to a name was among what that name's call got. */
  lemma RecordedCovers(prev: seq<Tab>, ts: seq<Tab>, names: seq<string>, found: seq<seq<Tab>>, lens: seq<nat>)
    requires Recorded(ts, names, found, lens) && |found| == |names| && prev <= ts && lens[0] == |prev|
    ensures forall k, t :: 0 <= k < |names| && t in prev && t.Compare(names[k]) ==> t in found[k]
  {
    forall k, t | 0 <= k < |names| && t in prev && t.Compare(names[k]) ensures t in found[k] {
      var j :| 0 <= j < |prev| && prev[j] == t;
      assert ts[..lens[k + 1]][j] == t;
    }
  }

  /** The rules of the built-in tabs that `load_tab_mappings` starts from. */
  const DefaultIdentities: seq<Identity> := [
    Identity(["QuickAccess.*"], ["valve.steam.gamepadui.quickaccess"],
             KeywordList(["All", "QuickAccess.*", "QuickAccess_.*", "QuickAccess"])),
    Identity(["MainMenu.*"], ["valve.steam.gamepadui.mainmenu"],
             KeywordList(["All", "MainMenu", "MainMenu_.*"])),
    Identity(["SP|Steam Big Picture Mode"], ["Valve Steam Gamepad/default"],
             KeywordList(["All", "SP", "Steam Big Picture Mode"]))
  ]

  /** The positions of the rules in `ids` that answer to `name` for a tab with no
      remote tab, in order. */
  function Answering(ids: seq<Identity>, name: string): (r: seq<nat>)
    ensures forall i :: 0 <= i < |r| ==> r[i] < |ids| && CompareIdentity(ids[r[i]], None, name)
    ensures forall k :: 0 <= k < |ids| && CompareIdentity(ids[k], None, name) ==> k in r
    ensures forall i, j :: 0 <= i < j < |r| ==> r[i] < r[j]
  {
    if ids == [] then []
    else
      var n := |ids| - 1;
      Answering(ids[..n], name) + (if CompareIdentity(ids[n], None, name) then [n] else [])
  }

  /** `add_pattern` on rules. */
  function WithPattern(id: Identity, pattern: string): (r: Identity)
    ensures pattern in r.patterns && id.patterns <= r.patterns
    ensures r.urlParts == id.urlParts && r.keywords == id.keywords
  {
    UnionIntoHas(id.patterns, [pattern]);
    UnionIntoKeepsPrefix(id.patterns, [pattern]);
    id.(patterns := UnionInto(id.patterns, [pattern]))
  }

  /** Adding a pattern keeps every name the rules answered to. */
  lemma WithPatternCompares(id: Identity, pattern: string, name: string)
    requires CompareIdentity(id, None, name)
    ensures CompareIdentity(WithPattern(id, pattern), None, name)
  {
    if name in id.patterns {
      assert name in WithPattern(id, pattern).patterns;
    }
  }

  /** What the rule `query:pattern` does to a cache of tabs without remote tabs whose
      rules are `ids`: the one tab answering to `query` gains the pattern; if none
      does, a tab for `query` is created and gains it; if several do, a tab with the
      sole pattern `pattern` and the keyword string `query` is appended. */
  function RuleSpec(ids: seq<Identity>, query: string, pattern: string): (r: seq<Identity>)
    ensures |ids| <= |r| <= |ids| + 1
  {
    var hits := Answering(ids, query);
    if |hits| == 1 then ids[hits[0] := WithPattern(ids[hits[0]], pattern)]
    else if hits == [] then ids + [WithPattern(NewTabIdentity(query), pattern)]
    else ids + [Identity([pattern], [], KeywordText(query))]
  }

  /** A rule leaves the earlier tabs' URL parts and keywords alone and only adds to
      their patterns, and changes no tab but the only one answering to the query. */
  lemma RuleSpecGrows(ids: seq<Identity>, query: string, pattern: string)
    ensures forall k :: 0 <= k < |ids| ==>
              && RuleSpec(ids, query, pattern)[k].urlParts == ids[k].urlParts
              && RuleSpec(ids, query, pattern)[k].keywords == ids[k].keywords
              && ids[k].patterns <= RuleSpec(ids, query, pattern)[k].patterns
    ensures forall k :: 0 <= k < |ids| && RuleSpec(ids, query, pattern)[k] != ids[k] ==>
              Answering(ids, query) == [k]
  {
    var hits := Answering(ids, query);
    if |hits| == 1 {
      assert hits == [hits[0]];
    }
  }

  /** After a rule some tab answering to its query has its pattern. */
  lemma RuleSpecLands(ids: seq<Identity>, query: string, pattern: string)
    ensures exists k :: 0 <= k < |RuleSpec(ids, query, pattern)|
                        && pattern in RuleSpec(ids, query, pattern)[k].patterns
                        && CompareIdentity(RuleSpec(ids, query, pattern)[k], None, query)
  {
    var r := RuleSpec(ids, query, pattern);
    var hits := Answering(ids, query);
    if |hits| == 1 {
      WithPatternCompares(ids[hits[0]], pattern, query);
      assert pattern in r[hits[0]].patterns && CompareIdentity(r[hits[0]], None, query);
    } else if hits == [] {
      WithPatternCompares(NewTabIdentity(query), pattern, query);
      assert pattern in r[|ids|].patterns && CompareIdentity(r[|ids|], None, query);
    } else {
      assert query <= query;
      assert pattern in r[|ids|].patterns && CompareIdentity(r[|ids|], None, query);
    }
  }

  /** What one line of `mappings.txt` does: a rule is applied, anything else is skipped. */
  function LineSpec(ids: seq<Identity>, line: string): seq<Identity> {
    match ParseMappingLine(line)
    case Rule(query, pattern) => RuleSpec(ids, query, pattern)
    case _ => ids
  }

  /** The rules of the cache after `load_tab_mappings` reads `lines`: the built-in
      tabs, then each line in order. */
  function LoadSpec(lines: seq<string>): seq<Identity> {
    if lines == [] then DefaultIdentities
    else LineSpec(LoadSpec(lines[..|lines| - 1]), lines[|lines| - 1])
  }

  /** However many lines are read, the three built-in tabs stay first, keep their URL
      parts and keywords, and keep their built-in patterns at the front of their
      pattern lists. */
  lemma {:induction false} LoadSpecKeepsDefaults(lines: seq<string>)
    ensures |LoadSpec(lines)| >= |DefaultIdentities|
    ensures forall k :: 0 <= k < |DefaultIdentities| ==>
              && LoadSpec(lines)[k].urlParts == DefaultIdentities[k].urlParts
              && LoadSpec(lines)[k].keywords == DefaultIdentities[k].keywords
              && DefaultIdentities[k].patterns <= LoadSpec(lines)[k].patterns
  {
    if lines != [] {
      var before := LoadSpec(lines[..|lines| - 1]);
      LoadSpecKeepsDefaults(lines[..|lines| - 1]);
      var m := ParseMappingLine(lines[|lines| - 1]);
      if m.Rule? {
        RuleSpecGrows(before, m.query, m.pattern);
      }
    }
  }

  /** Lines that are no rules leave the built-in tabs exactly as they are. */
  lemma {:induction false} LoadSpecWithoutRules(lines: seq<string>)
    requires forall k :: 0 <= k < |lines| ==> !ParseMappingLine(lines[k]).Rule?
    ensures LoadSpec(lines) == DefaultIdentities
  {
    if lines != [] {
      LoadSpecWithoutRules(lines[..|lines| - 1]);
    }
  }

  /** Every rule line read leaves its pattern in a tab answering to its query. */
  lemma RuleLineLands(ids: seq<Identity>, line: string)
    requires ParseMappingLine(line).Rule?
    ensures var m := ParseMappingLine(line);
      exists k :: 0 <= k < |LineSpec(ids, line)| && m.pattern in LineSpec(ids, line)[k].patterns
                  && CompareIdentity(LineSpec(ids, line)[k], None, m.query)
  {
    var m := ParseMappingLine(line);
    assert LineSpec(ids, line) == RuleSpec(ids, m.query, m.pattern);
    RuleSpecLands(ids, m.query, m.pattern);
  }

  /** None of the tabs `ts` has a remote tab, a merge pointer or buffered changes: so
      are the tabs `load_tab_mappings` creates. */
  ghost predicate Unattached(ts: seq<Tab>)
    reads ts
  {
    forall t :: t in ts ==> t.handle == None && t.primary == null && t.Buffers() == NoPending
  }

  /** The rules of the tabs `ts`, in order. */
  function RuleList(ts: seq<Tab>): (r: seq<Identity>)
    reads ts
    ensures |r| == |ts| && forall k :: 0 <= k < |ts| ==> r[k] == ts[k].Rules()
  {
    seq(|ts|, k requires 0 <= k < |ts| reads ts => ts[k].Rules())
  }

  /** The part of `MatchesOfAnswering` that `get_single_tab` needs: how many tabs
      answer, and which one when it is only one. */
  lemma MatchesOfSingle(ts: seq<Tab>, name: string)
    requires forall t :: t in ts ==> t.handle == None
    ensures |MatchesOf(ts, name)| == |Answering(RuleList(ts), name)|
    ensures |MatchesOf(ts, name)| == 1 ==>
              Answering(RuleList(ts), name)[0] < |ts| && MatchesOf(ts, name)[0] == ts[Answering(RuleList(ts), name)[0]]
  {
    MatchesOfAnswering(ts, name);
  }

  lemma UnattachedAppend(ts: seq<Tab>, t: Tab)
    requires Unattached(ts)
    requires t.handle == None && t.primary == null && t.Buffers() == NoPending
    ensures Unattached(ts + [t])
  {
  }

  lemma RuleListAppend(ts: seq<Tab>, t: Tab)
    ensures RuleList(ts + [t]) == RuleList(ts) + [t.Rules()]
  {
    RuleListIs(ts + [t], RuleList(ts) + [t.Rules()]);
  }

  lemma RuleListIs(ts: seq<Tab>, ids: seq<Identity>)
    requires |ts| == |ids| && forall k :: 0 <= k < |ts| ==> ts[k].Rules() == ids[k]
    ensures RuleList(ts) == ids
  {
  }

  /** For tabs without a remote tab, the cached tabs answering to `name` are those at
      the positions `Answering` finds in their rules. */
  lemma {:induction false} MatchesOfAnswering(ts: seq<Tab>, name: string)
    requires forall t :: t in ts ==> t.handle == None
    ensures |MatchesOf(ts, name)| == |Answering(RuleList(ts), name)|
    ensures forall i :: 0 <= i < |MatchesOf(ts, name)| ==>
              Answering(RuleList(ts), name)[i] < |ts| && MatchesOf(ts, name)[i] == ts[Answering(RuleList(ts), name)[i]]
  {
    if ts != [] {
      var n := |ts| - 1;
      MatchesOfAnswering(ts[..n], name);
      var ids := RuleList(ts);
      assert ids[..n] == RuleList(ts[..n]);
      var front, hits := MatchesOf(ts[..n], name), Answering(ids[..n], name);
      assert MatchesOf(ts, name) == front + (if ts[n].Compare(name) then [ts[n]] else []);
      assert Answering(ids, name) == hits + (if CompareIdentity(ids[n], None, name) then [n] else []);
      assert ts[n].Compare(name) == CompareIdentity(ids[n], None, name);
      forall i | 0 <= i < |front| ensures hits[i] < n && front[i] == ts[hits[i]] {
        assert ts[..n][hits[i]] == ts[hits[i]];
      }
      PositionsExtend(ts, front, hits, ts[n].Compare(name));
    }
  }

  /** Tabs `front` found at the positions `hits` of `ts` without its last tab stay found
      there when the last tab is added to both or to neither. */
  lemma PositionsExtend(ts: seq<Tab>, front: seq<Tab>, hits: seq<nat>, hit: bool)
    requires ts != [] && |front| == |hits|
    requires forall i :: 0 <= i < |front| ==> hits[i] < |ts| - 1 && front[i] == ts[hits[i]]
    ensures var all := front + (if hit then [ts[|ts| - 1]] else []);
            var allHits := hits + (if hit then [|ts| - 1] else []);
            |all| == |allHits| && forall i :: 0 <= i < |all| ==> allHits[i] < |ts| && all[i] == ts[allHits[i]]
  {
    var all := front + (if hit then [ts[|ts| - 1]] else []);
    var allHits := hits + (if hit then [|ts| - 1] else []);
    forall i | 0 <= i < |all| ensures allHits[i] < |ts| && all[i] == ts[allHits[i]] {
      if i < |front| {
        assert all[i] == front[i] && allHits[i] == hits[i];
      }
    }
  }

  class TabCache {
    var tabs: seq<Tab>

    ghost predicate Valid()
      reads this
    {
      NoDup(tabs)
    }

    /** The cache before `load_tab_mappings` has filled it. */
    constructor ()
      ensures Valid() && tabs == []
    {
      tabs := [];
    }

    /** The lookup loop of `get_tab`: every cached tab for which `compare(name)` holds,
        in cache order. */
    method FindMatches(name: string) returns (found: seq<Tab>)
      ensures found == MatchesOf(tabs, name)
    {
      found := [];
      var i := 0;
      while i < |tabs|
        invariant 0 <= i <= |tabs|
        invariant found == MatchesOf(tabs[..i], name)
      {
        assert tabs[..i + 1][..i] == tabs[..i];
        if tabs[i].Compare(name) {
          found := found + [tabs[i]];
        }
        i := i + 1;
      }
      assert tabs[..i] == tabs;
    }

    /** `get_tab(name)`: the cached tabs that answer to `name`, in cache order; on a
        miss, one new tab with the rules of `NewTabIdentity(name)` is appended and
        returned. Afterwards the tabs that answer to `name` are exactly the returned
        ones, so asking again returns the same list and adds nothing. */
    method GetTab(name: string) returns (found: seq<Tab>)
      requires Valid()
      modifies this
      ensures Valid()
      ensures old(MatchesOf(tabs, name)) != [] ==> found == old(MatchesOf(tabs, name)) && tabs == old(tabs)
      ensures old(MatchesOf(tabs, name)) == [] ==>
                && |found| == 1 && fresh(found[0]) && tabs == old(tabs) + found
                && found[0].Rules() == NewTabIdentity(name)
                && found[0].handle == None && found[0].primary == null
                && found[0].Buffers() == NoPending
      ensures found != [] && MatchesOf(tabs, name) == found
    {
      found := FindMatches(name);
      if |found| <= 0 {
        var id := NewTabIdentity(name);
        var t := new Tab(id.patterns, id.urlParts, id.keywords);
        found := [t];
        assert (tabs + [t])[..|tabs|] == tabs;
        tabs := tabs + [t];
      }
    }

    /** Asking `get_tab` twice for the same name: the second call returns exactly what
        the first returned and leaves the cache as the first call left it. */
    method GetTabTwice(name: string) returns (first: seq<Tab>, second: seq<Tab>)
      requires Valid()
      modifies this
      ensures Valid() && first != [] && second == first
      ensures tabs == old(tabs) + (if old(MatchesOf(tabs, name)) == [] then first else [])
    {
      first := GetTab(name);
      ghost var afterFirst := tabs;
      second := GetTab(name);
      assert tabs == afterFirst;
    }

    /** `get_single_tab(name)`: the one tab that answers to `name`; `null` when two or
        more do. Because `get_tab` creates a tab on a miss, a name nothing answers to
        yields that new tab rather than `null`. */
    method GetSingleTab(name: string) returns (t: Tab?)
      requires Valid()
      modifies this
      ensures Valid()
      ensures |old(MatchesOf(tabs, name))| == 1 ==> t == old(MatchesOf(tabs, name))[0] && tabs == old(tabs)
      ensures |old(MatchesOf(tabs, name))| >= 2 ==> t == null && tabs == old(tabs)
      ensures old(MatchesOf(tabs, name)) == [] ==>
                && t != null && fresh(t) && tabs == old(tabs) + [t]
                && t.Rules() == NewTabIdentity(name)
                && t.handle == None && t.primary == null && t.Buffers() == NoPending
      ensures RuleList(old(tabs)) == old(RuleList(tabs)) && Unattached(old(tabs)) == old(Unattached(tabs))
    {
      var found := GetTab(name);
      if |found| != 1 {
        return null;
      }
      t := found[0];
    }

    /** `get_tabs(names)`: every tab `get_tab` returns for any of the names, each once,
        in the order first seen. The cache was `lens[0]` tabs long at the start, and
        `get_tab(names[k])` took it from `lens[k]` to `lens[k + 1]` tabs, adding a tab
        only on a miss; `found[k]` is what that call returned: every tab answering to
        `names[k]` among the first `lens[k + 1]` tabs. So the cache grows by exactly the
        tabs made on misses, every tab that was cached and answers to one of the names
        is returned, and so is every tab created on the way. */
    method GetTabs(names: seq<string>) returns (r: seq<Tab>, ghost found: seq<seq<Tab>>, ghost lens: seq<nat>)
      requires Valid()
      modifies this
      ensures Valid()
      ensures old(tabs) <= tabs && forall t :: t in tabs && t !in old(tabs) ==> fresh(t)
      ensures |found| == |names| && Recorded(tabs, names, found, lens)
      ensures lens[0] == |old(tabs)| && lens[|names|] == |tabs|
      ensures r == UnionInto([], Flatten(found))
      ensures NoDup(r) && forall t :: t in r <==> exists k :: 0 <= k < |names| && t in found[k]
      ensures forall k, t :: 0 <= k < |names| && t in old(tabs) && t.Compare(names[k]) ==> t in r
      ensures forall t :: t in tabs && t !in old(tabs) ==> t in r
    {
      r := [];
      found, lens := [], [|tabs|];
      var i := 0;
      while i < |names|
        invariant 0 <= i <= |names| && |found| == i
        invariant Valid()
        invariant old(tabs) <= tabs && forall t :: t in tabs && t !in old(tabs) ==> fresh(t)
        invariant forall t :: t in tabs && t !in old(tabs) ==> t in r
        invariant Recorded(tabs, names, found, lens)
        invariant lens[0] == |old(tabs)| && lens[i] == |tabs|
        invariant r == UnionInto([], Flatten(found))
      {
        r, found, lens := GetTabsRound(names, i, r, found, lens, old(tabs));
        i := i + 1;
      }
      GetTabsReturns(old(tabs), tabs, names, found, lens, r);
    }

    /** Round `i` of `get_tabs`, which extends the record of the calls so far. */
    method GetTabsRound(names: seq<string>, i: int, r0: seq<Tab>, ghost found0: seq<seq<Tab>>,
                        ghost lens0: seq<nat>, ghost start: seq<Tab>)
      returns (r: seq<Tab>, ghost found: seq<seq<Tab>>, ghost lens: seq<nat>)
      requires Valid() && 0 <= i < |names| && |found0| == i
      requires Recorded(tabs, names, found0, lens0) && lens0[i] == |tabs|
      requires r0 == UnionInto([], Flatten(found0))
      requires forall t :: t in tabs && t !in start ==> t in r0
      modifies this
      ensures Valid()
      ensures old(tabs) <= tabs && forall t :: t in tabs && t !in old(tabs) ==> fresh(t)
      ensures |found| == i + 1 && Recorded(tabs, names, found, lens)
      ensures lens[0] == lens0[0] && lens[i + 1] == |tabs|
      ensures r == UnionInto([], Flatten(found))
      ensures forall t :: t in tabs && t !in start ==> t in r
    {
      ghost var prev := tabs;
      var got;
      got, r := GetTabsStep(names[i], r0, start, names, found0, lens0);
      RecordedNext(prev, tabs, names, found0, lens0, got);
      UnionIntoConcat([], Flatten(found0), got);
      assert (found0 + [got])[..i] == found0;
      found, lens := found0 + [got], lens0 + [|tabs|];
    }

    /** One call of `get_tabs`: `get_tab(name)`, whose tabs the inner loop then adds
        to `r0` unless present. A tab added to the cache since `start` ends up in the result. */
    method GetTabsStep(name: string, r0: seq<Tab>, ghost start: seq<Tab>,
                       ghost names: seq<string>, ghost found0: seq<seq<Tab>>, ghost lens0: seq<nat>)
      returns (got: seq<Tab>, r: seq<Tab>)
      requires Valid()
      requires forall t :: t in tabs && t !in start ==> t in r0
      requires Recorded(tabs, names, found0, lens0)
      modifies this
      ensures Recorded(old(tabs), names, found0, lens0)
      ensures Valid()
      ensures old(tabs) <= tabs && forall t :: t in tabs && t !in old(tabs) ==> fresh(t)
      ensures got != [] && got == MatchesOf(tabs, name)
      ensures GetTabStep(tabs, |old(tabs)|, |tabs|, name)
      ensures r == UnionInto(r0, got)
      ensures forall t :: t in tabs && t !in start ==> t in r
    {
      got := GetTabKeepingRecord(name, names, found0, lens0);
      r := AppendNew(r0, got);
      UnionIntoHas(r0, got);
      assert tabs == old(tabs) || tabs == old(tabs) + got;
    }

    /** `get_tab(name)`, which leaves alone the tabs cached before it and therefore
        what earlier calls of `get_tabs` saw in them. */
    method GetTabKeepingRecord(name: string, ghost names: seq<string>, ghost found0: seq<seq<Tab>>,
                               ghost lens0: seq<nat>) returns (found: seq<Tab>)
      requires Valid()
      modifies this
      ensures Valid()
      ensures tabs == old(tabs) || (|found| == 1 && fresh(found[0]) && tabs == old(tabs) + found)
      ensures found != [] && MatchesOf(tabs, name) == found
      ensures GetTabStep(tabs, |old(tabs)|, |tabs|, name)
      ensures Recorded(old(tabs), names, found0, lens0) == old(Recorded(tabs, names, found0, lens0))
    {
      found := GetTabAsStep(name);
    }

    /** `get_tab(name)` as one step of `get_tabs`: a hit leaves the cache alone and a
        miss appends exactly the one tab it returns. */
    method GetTabAsStep(name: string) returns (found: seq<Tab>)
      requires Valid()
      modifies this
      ensures Valid()
      ensures tabs == old(tabs) || (|found| == 1 && fresh(found[0]) && tabs == old(tabs) + found)
      ensures found != [] && MatchesOf(tabs, name) == found
      ensures GetTabStep(tabs, |old(tabs)|, |tabs|, name)
    {
      ghost var before := tabs;
      ghost var hits := MatchesOf(tabs, name);
      found := GetTab(name);
      // the cached tabs themselves are outside the call's frame
      assert MatchesOf(before, name) == hits;
      if hits != [] {
        HitStep(before, name);
      } else {
        MissStep(before, found, name);
      }
    }

    /** The rule `<query>:<pattern>` of one line of `mappings.txt`, applied while the
        cache holds only tabs that `load_tab_mappings` itself created, none with a
        remote tab: `query` is looked up with `get_single_tab`. When exactly one tab
        answers, the pattern is added to it unless present. When none does, `get_tab`
        has just created a tab for `query`, and the pattern is added to that one. When
        two or more answer, a new tab is appended whose only pattern is `pattern` and
        whose keywords are the string `query` itself. The rules become `RuleSpec` of
        the rules before. */
    method ApplyRule(query: string, pattern: string)
      requires Valid()
      requires Unattached(tabs)
      modifies this, tabs
      ensures Valid() && old(tabs) <= tabs && forall t :: t in tabs && t !in old(tabs) ==> fresh(t)
      ensures Unattached(tabs)
      ensures RuleList(tabs) == RuleSpec(old(RuleList(tabs)), query, pattern)
    {
      ghost var ids := RuleList(tabs);
      ghost var hits := Answering(ids, query);
      ghost var spec := RuleSpec(ids, query, pattern);
      ghost var n := |ids|;
      var tab := LookUpRule(query);
      if tab == null {
        AppendRuleTab(query, pattern);
        assert spec == ids + [Identity([pattern], [], KeywordText(query))];
      } else {
        ghost var h := if |hits| == 1 then hits[0] else n;
        GrowRule(tab, pattern, h);
        assert RuleList(tabs) == spec;
      }
    }

    /** `Tab([pattern], [], query)` appended to the cache when several tabs answer. */
    method AppendRuleTab(query: string, pattern: string)
      requires Valid()
      requires Unattached(tabs)
      modifies this
      ensures Valid() && |tabs| == |old(tabs)| + 1 && tabs[..|old(tabs)|] == old(tabs) && fresh(tabs[|old(tabs)|])
      ensures Unattached(tabs)
      ensures RuleList(tabs) == old(RuleList(tabs)) + [Identity([pattern], [], KeywordText(query))]
    {
      var t := new Tab([pattern], [], KeywordText(query));
      UnattachedAppend(tabs, t);
      RuleListAppend(tabs, t);
      assert (tabs + [t])[..|tabs|] == tabs;
      tabs := tabs + [t];
    }

    /** `tab.add_pattern(pattern)` on the cached tab at `h`, stated on the rules of the
        whole cache: only that tab's rules change. */
    method GrowRule(tab: Tab, pattern: string, ghost h: int)
      requires Valid() && 0 <= h < |tabs| && tabs[h] == tab
      requires Unattached(tabs)
      modifies tab`patterns
      ensures Unattached(tabs)
      ensures RuleList(tabs) == old(RuleList(tabs))[h := WithPattern(old(RuleList(tabs))[h], pattern)]
    {
      ghost var before := RuleList(tabs);
      tab.AddPattern(pattern);
      assert Unattached(tabs) by {
        forall t | t in tabs ensures t.handle == None && t.primary == null && t.Buffers() == NoPending {
          assert old(t.handle == None && t.primary == null && t.Buffers() == NoPending);
        }
      }
      forall k | 0 <= k < |tabs| ensures tabs[k].Rules() == before[h := WithPattern(before[h], pattern)][k] {
        if k == h {
          assert tabs[k].Rules() == WithPattern(before[h], pattern);
        } else {
          assert tabs[k] != tab;
        }
      }
      RuleListIs(tabs, before[h := WithPattern(before[h], pattern)]);
    }

    /** `get_single_tab(query)` while the cache holds only tabs without a remote tab,
        stated on the rules `Answering` reads: the one tab answering to `query`, or
        `null` when several do, or a tab for `query` appended on a miss. */
    method LookUpRule(query: string) returns (tab: Tab?)
      requires Valid()
      requires Unattached(tabs)
      modifies this
      ensures Valid()
      ensures Unattached(tabs)
      ensures Answering(old(RuleList(tabs)), query) != [] ==> RuleList(tabs) == old(RuleList(tabs))
      ensures Answering(old(RuleList(tabs)), query) == [] ==>
                RuleList(tabs) == old(RuleList(tabs)) + [NewTabIdentity(query)]
      ensures |Answering(old(RuleList(tabs)), query)| == 1 ==>
                tabs == old(tabs) && tab == tabs[Answering(old(RuleList(tabs)), query)[0]]
      ensures |Answering(old(RuleList(tabs)), query)| >= 2 ==> tabs == old(tabs) && tab == null
      ensures Answering(old(RuleList(tabs)), query) == [] ==>
                && tab != null && fresh(tab) && tabs == old(tabs) + [tab]
                && tab.Rules() == NewTabIdentity(query)
    {
      ghost var before := tabs;
      ghost var ids := RuleList(tabs);
      ghost var hits := Answering(ids, query);
      ghost var matches := MatchesOf(tabs, query);
      MatchesOfSingle(tabs, query);
      tab := GetSingleTab(query);
      if hits == [] {
        assert tabs == before + [tab];
        RuleListAppend(before, tab);
        UnattachedAppend(before, tab);
      } else {
        assert tabs == before;
      }
    }

    /** `load_tab_mappings`: the cache is reset to the three built-in tabs and then
        every line of `mappings.txt` is applied in order; `lines` is empty when the file
        does not exist. The cache ends holding fresh tabs without remote tabs whose
        rules are `LoadSpec(lines)`: the built-in tabs stay at the front with their URL
        parts and keywords, and only gain patterns. */
    method LoadTabMappings(lines: seq<string>)
      modifies this
      ensures Valid()
      ensures forall t :: t in tabs ==> fresh(t)
      ensures Unattached(tabs)
      ensures RuleList(tabs) == LoadSpec(lines)
      ensures |tabs| >= |DefaultIdentities|
      ensures forall k :: 0 <= k < |DefaultIdentities| ==>
                && tabs[k].urlParts == DefaultIdentities[k].urlParts
                && tabs[k].keywords == DefaultIdentities[k].keywords
                && DefaultIdentities[k].patterns <= tabs[k].patterns
    {
      ResetToDefaults();
      var i := 0;
      while i < |lines|
        invariant 0 <= i <= |lines|
        invariant Valid()
        invariant forall t :: t in tabs ==> fresh(t)
        invariant Unattached(tabs)
        invariant RuleList(tabs) == LoadSpec(lines[..i])
      {
        // the call's frame is checked index by index
        forall k | 0 <= k < |tabs| ensures fresh(tabs[k]) { assert tabs[k] in tabs; }
        LoadLine(lines[i]);
        assert lines[..i + 1][..i] == lines[..i];
        i := i + 1;
      }
      assert lines[..i] == lines;
      LoadSpecKeepsDefaults(lines);
    }

    /** One line of `load_tab_mappings` on a cache of tabs without remote tabs: the
        rules become `LineSpec` of the rules before. */
    method LoadLine(line: string)
      requires Valid()
      requires Unattached(tabs)
      modifies this, tabs
      ensures Valid() && old(tabs) <= tabs && forall t :: t in tabs && t !in old(tabs) ==> fresh(t)
      ensures Unattached(tabs)
      ensures RuleList(tabs) == LineSpec(old(RuleList(tabs)), line)
    {
      var m := ParseMappingLine(line);
      if m.Rule? {
        ApplyRule(m.query, m.pattern);
      }
    }

    /** The first statement of `load_tab_mappings`: the cache becomes the three
        built-in tabs, in order. */
    method ResetToDefaults()
      modifies this
      ensures Valid() && |tabs| == |DefaultIdentities|
      ensures (forall t :: t in tabs ==> fresh(t)) && Unattached(tabs)
      ensures forall k :: 0 <= k < |tabs| ==> tabs[k].Rules() == DefaultIdentities[k]
    {
      var quickAccess := new Tab(DefaultIdentities[0].patterns, DefaultIdentities[0].urlParts, DefaultIdentities[0].keywords);
      var mainMenu := new Tab(DefaultIdentities[1].patterns, DefaultIdentities[1].urlParts, DefaultIdentities[1].keywords);
      var bigPicture := new Tab(DefaultIdentities[2].patterns, DefaultIdentities[2].urlParts, DefaultIdentities[2].keywords);
      tabs := [quickAccess, mainMenu, bigPicture];
    }

    /** `commit_all`: every connected cached tab commits its buffers with the default
        retry count of 3; `outcomes[k]` says which evaluation attempts of `tabs[k]`
        succeed. `sent[k]` is the payload `tabs[k]` sent, if any, and `results[k]` the
        retry loop's outcome for it. The source runs the commits concurrently and
        discards their results; the commits touch disjoint tabs, so running them in
        cache order ends in the same state. */
    method CommitAll(outcomes: seq<seq<bool>>)
      returns (sent: seq<Option<Payload>>, results: seq<Option<Attempted>>)
      requires Valid() && |outcomes| == |tabs|
      requires forall k :: 0 <= k < |outcomes| ==> |outcomes[k]| >= 3
      modifies tabs
      ensures |sent| == |results| == |tabs|
      ensures forall k :: 0 <= k < |tabs| ==>
                if old(tabs[k].IsConnected()) then
                  && tabs[k].Buffers() == NoPending
                  && (old(tabs[k].Buffers()) == NoPending ==>
                        sent[k] == None && results[k] == Some(Attempted(Ok, 0)))
                  && (old(tabs[k].Buffers()) != NoPending ==>
                        sent[k] == Some(PayloadOf(old(tabs[k].Buffers())))
                        && results[k] == Some(RetryOutcome(3, outcomes[k])))
                else
                  sent[k] == None && results[k] == None && tabs[k].Buffers() == old(tabs[k].Buffers())
      ensures forall k :: 0 <= k < |tabs| ==>
                tabs[k].handle == old(tabs[k].handle) && tabs[k].socketLive == old(tabs[k].socketLive)
                && tabs[k].Rules() == old(tabs[k].Rules()) && tabs[k].primary == old(tabs[k].primary)
    {
      sent, results := [], [];
      var i := 0;
      while i < |tabs|
        invariant 0 <= i <= |tabs| && |sent| == |results| == i
        invariant forall k :: 0 <= k < i ==>
                    if old(tabs[k].IsConnected()) then
                      && tabs[k].Buffers() == NoPending
                      && (old(tabs[k].Buffers()) == NoPending ==>
                            sent[k] == None && results[k] == Some(Attempted(Ok, 0)))
                      && (old(tabs[k].Buffers()) != NoPending ==>
                            sent[k] == Some(PayloadOf(old(tabs[k].Buffers())))
                            && results[k] == Some(RetryOutcome(3, outcomes[k])))
                    else
                      sent[k] == None && results[k] == None && tabs[k].Buffers() == old(tabs[k].Buffers())
        invariant forall k :: i <= k < |tabs| ==> tabs[k].Buffers() == old(tabs[k].Buffers())
        invariant forall k :: 0 <= k < |tabs| ==>
                    tabs[k].handle == old(tabs[k].handle) && tabs[k].socketLive == old(tabs[k].socketLive)
                    && tabs[k].Rules() == old(tabs[k].Rules()) && tabs[k].primary == old(tabs[k].primary)
      {
        var t := tabs[i];
        if t.IsConnected() {
          var r, p, n := t.CommitCssTransaction(3, outcomes[i]);
          sent, results := sent + [p], results + [Some(Attempted(r, n))];
        } else {
          sent, results := sent + [None], results + [None];
        }
        i := i + 1;
      }
    }

    /** `remove_all`: every connected cached tab drops its buffers and runs the
        remove-everything script with the default retry count of 3. */
    method RemoveAll(outcomes: seq<seq<bool>>) returns (results: seq<Option<Attempted>>)
      requires Valid() && |outcomes| == |tabs|
      requires forall k :: 0 <= k < |outcomes| ==> |outcomes[k]| >= 3
      modifies tabs
      ensures |results| == |tabs|
      ensures forall k :: 0 <= k < |tabs| ==>
                if old(tabs[k].IsConnected()) then
                  tabs[k].Buffers() == NoPending && results[k] == Some(RetryOutcome(3, outcomes[k]))
                else
                  results[k] == None && tabs[k].Buffers() == old(tabs[k].Buffers())
      ensures forall k :: 0 <= k < |tabs| ==>
                tabs[k].handle == old(tabs[k].handle) && tabs[k].socketLive == old(tabs[k].socketLive)
                && tabs[k].Rules() == old(tabs[k].Rules()) && tabs[k].primary == old(tabs[k].primary)
    {
      results := [];
      var i := 0;
      while i < |tabs|
        invariant 0 <= i <= |tabs| && |results| == i
        invariant forall k :: 0 <= k < i ==>
                    if old(tabs[k].IsConnected()) then
                      tabs[k].Buffers() == NoPending && results[k] == Some(RetryOutcome(3, outcomes[k]))
                    else
                      results[k] == None && tabs[k].Buffers() == old(tabs[k].Buffers())
        invariant forall k :: i <= k < |tabs| ==> tabs[k].Buffers() == old(tabs[k].Buffers())
        invariant forall k :: 0 <= k < |tabs| ==>
                    tabs[k].handle == old(tabs[k].handle) && tabs[k].socketLive == old(tabs[k].socketLive)
                    && tabs[k].Rules() == old(tabs[k].Rules()) && tabs[k].primary == old(tabs[k].primary)
      {
        var t := tabs[i];
        if t.IsConnected() {
          var r, n := t.RemoveAllCss(3, outcomes[i]);
          results := results + [Some(Attempted(r, n))];
        } else {
          results := results + [None];
        }
        i := i + 1;
      }
    }

    /** One merge of `optimize_tabs`, `x` into `y`: `x` is pointed at `y`, `y` takes
        `x`'s rules and `x` leaves the cache. It returns false where the keyword append
        raises, after `x` is pointed at `y` and `y` has taken the patterns and URL parts.
        `cur` records every tab's state before the merge, `next` after it. */
    method MergePair(x: Tab, y: Tab, ghost orig: seq<Tab>, ghost cur: map<Tab, Snap>, ghost removed: set<Tab>)
      returns (ok: bool, ghost next: map<Tab, Snap>)
      requires forall t :: t in orig ==> t in cur && cur[t] == SnapOf(t)
      requires x in orig && y in orig && x != y && x !in removed
      requires NoDup(orig) && tabs == Without(orig, removed)
      modifies this, x`primary, y`patterns, y`urlParts, y`keywords
      ensures next == AfterMerge(cur, x, y, y.Rules())
      ensures forall t :: t in orig ==> t in next && next[t] == SnapOf(t)
      ensures y.patterns == UnionInto(cur[y].rules.patterns, cur[x].rules.patterns)
      ensures y.urlParts == UnionInto(cur[y].rules.urlParts, cur[x].rules.urlParts)
      ensures ok <==> MergeIdentity(cur[x].rules, cur[y].rules).Some?
      ensures ok ==> y.Rules() == MergeIdentity(cur[x].rules, cur[y].rules).value
      ensures !ok ==> y.keywords == cur[y].rules.keywords && y.Rules() == HalfMergeIdentity(cur[x].rules, cur[y].rules)
      ensures RulesGrew(cur[y].rules, y.Rules())
      ensures ok ==> Covers(y.Rules(), cur[x].rules) && tabs == Without(orig, removed + {x})
      ensures !ok ==> tabs == old(tabs)
    {
      ok := x.MergeInto(y);
      next := AfterMerge(cur, x, y, y.Rules());
      if ok {
        MergeIdentityGrowsAndCovers(cur[x].rules, cur[y].rules);
        RemoveFirstFromWithout(orig, removed, x);
        tabs := RemoveFirst(tabs, x);
      } else {
        UnionIntoKeepsPrefix(cur[y].rules.patterns, x.patterns);
        UnionIntoKeepsPrefix(cur[y].rules.urlParts, x.urlParts);
      }
      forall t | t in orig ensures next[t] == SnapOf(t) {
        if t == x {
          assert next[t] == old(SnapOf(x)).(primary := y);
        } else if t != y {
          assert next[t] == old(SnapOf(t));
        }
      }
    }

    /** `optimize_tabs`: any two distinct connected tabs with the same name, neither of
        them merged yet, are merged: the first is pointed at the second, which takes its
        rules, and is dropped from the cache. `removed` is the set of tabs dropped and
        `snap` every cached tab's state at entry. When a keyword append raises, `half`
        holds the one tab being absorbed: pointed at its survivor, which has taken its
        patterns and URL parts, but still cached. Wherever it stops, every dropped tab
        points at a connected tab of the same name whose rules cover its own, and every
        tab holds only rules that it or a dropped or half-absorbed tab held at entry,
        with no duplicate added. A tab no dropped or half-absorbed tab points at keeps its
        rules, and each of those tabs comes before the one it points at in the cache as
        it was at entry. When it finishes, no two surviving connected unmerged tabs share
        a name. */
    method OptimizeTabs() returns (res: OptimizeResult, ghost removed: set<Tab>, ghost half: set<Tab>,
                                   ghost snap: map<Tab, Snap>)
      requires Valid()
      modifies this, tabs
      ensures forall t :: t in old(tabs) ==> t in snap && snap[t] == old(SnapOf(t))
      ensures Valid() && tabs == Without(old(tabs), removed)
      ensures forall t :: t in old(tabs) ==>
                && RulesGrew(old(t.Rules()), t.Rules())
                && t.handle == old(t.handle) && t.socketLive == old(t.socketLive)
                && t.Buffers() == old(t.Buffers())
      ensures forall t :: t in old(tabs) && !old(t.IsConnected()) ==>
                t.Rules() == old(t.Rules()) && t.primary == old(t.primary)
      ensures res.Finished? ==> (res.changed <==> removed != {}) && half == {}
      ensures res.KeywordAppendRaised? ==> |half| == 1
      ensures forall t :: t in old(tabs) && t !in removed + half ==> t.primary == snap[t].primary
      ensures forall t :: t in removed ==>
                && t in old(tabs) && t.IsConnected() && snap[t].primary == null
                && t.primary != null && t.primary in old(tabs) && t.primary.IsConnected()
                && t.primary.GetName() == t.GetName()
                && Covers(t.primary.Rules(), t.Rules())
      ensures forall t :: t in half ==>
                && t in old(tabs) && t in tabs && t.IsConnected() && snap[t].primary == null
                && t.primary != null && t.primary != t && t.primary in tabs
                && t.primary.IsConnected() && t.primary.primary == null
                && t.primary.GetName() == t.GetName()
                && CoversLists(t.primary.Rules(), t.Rules())
                && MergeIdentity(t.Rules(), t.primary.Rules()).None?
      ensures forall t :: t in old(tabs) ==>
                && DrawnFrom(t.Rules(), snap[t].rules, RulesOf(snap, removed + half))
                && (ListsNoDup(snap[t].rules) ==> ListsNoDup(t.Rules()))
      ensures forall t :: t in old(tabs) && t !in Primaries(removed + half) ==> t.Rules() == snap[t].rules
      ensures forall t :: t in removed + half ==>
                t in old(tabs) && t.primary in old(tabs) && FirstIndex(old(tabs), t) < FirstIndex(old(tabs), t.primary)
      ensures res.Finished? ==>
                forall a, b :: a in tabs && b in tabs && a != b && a.IsConnected() && b.IsConnected()
                               && a.primary == null && b.primary == null
                               ==> a.GetName() != b.GetName()
    {
      ghost var orig := tabs;
      snap := SnapAll(tabs);
      var items := Live(tabs);
      LiveSameOrder(tabs);
      assert LiveIn(orig, snap, items);
      assert forall t :: t in orig ==> t in snap && snap[t] == old(SnapOf(t));
      var raised, changed;
      ghost var cur;
      raised, changed, cur, removed, half := MergeAll(items, orig, snap);
      res := if raised then KeywordAppendRaised else Finished(changed);
      WithoutNoDup(orig, removed);
      OptimizeKeeps(orig, snap, cur, items);
      if !raised {
        OptimizeSettles(orig, snap, cur, items, removed);
      }
      OptimizeMerges(orig, snap, cur, items, removed, half);
      OptimizeTargets(orig, snap, cur, items, removed + half);
    }

    /** The double loop of `optimize_tabs` over the connected tabs `items`, from the
        states `snap` to the states `cur`. */
    method MergeAll(items: seq<Tab>, ghost orig: seq<Tab>, ghost snap: map<Tab, Snap>)
      returns (raised: bool, changed: bool, ghost cur: map<Tab, Snap>, ghost removed: set<Tab>, ghost half: set<Tab>)
      requires NoDup(orig) && tabs == orig && (forall t :: t in items ==> t in orig)
      requires forall t :: t in orig ==> t in snap && snap[t] == SnapOf(t)
      modifies this, orig
      ensures NoDup(orig) && tabs == Without(orig, removed)
      ensures forall t :: t in orig ==> t in cur && cur[t] == SnapOf(t)
      ensures StoppedInv(orig, snap, cur, items, removed, half)
      ensures !raised ==> Settled(items, cur, |items|, 0) && half == {}
      ensures raised ==> |half| == 1
      ensures changed <==> removed != {}
    {
      cur := snap;
      changed, raised := false, false;
      removed, half := {}, {};
      WithoutNothing(tabs);
      var i := 0;
      while i < |items| && !raised
        invariant 0 <= i <= |items|
        invariant NoDup(orig) && tabs == Without(orig, removed)
        invariant forall t :: t in orig ==> t in cur && cur[t] == SnapOf(t)
        invariant StateKept(orig, snap, cur) && OutsideUntouched(orig, snap, cur, items)
        invariant !raised ==> MergeInv(orig, snap, cur, items, removed) && Settled(items, cur, i, 0) && half == {}
        invariant raised ==> |half| == 1 && StoppedInv(orig, snap, cur, items, removed, half)
        invariant changed <==> removed != {}
      {
        var merged;
        raised, merged, cur, removed, half := MergeRow(items, i, orig, snap, cur, removed);
        changed := changed || merged;
        i := i + 1;
      }
      if !raised {
        FinishedStops(orig, snap, cur, items, removed);
      }
    }

    /** One pass of the outer loop of `optimize_tabs`: `items[i]` is compared with every
        tab of `items` and merged into the first one that has its name while both are
        unmerged. `raised` reports the keyword append that stops the whole method; if
        there is none, every pair starting at `items[i]` is settled. */
    method MergeRow(items: seq<Tab>, i: int, ghost orig: seq<Tab>, ghost snap: map<Tab, Snap>,
                    ghost cur0: map<Tab, Snap>, ghost removed0: set<Tab>)
      returns (raised: bool, merged: bool, ghost cur: map<Tab, Snap>, ghost removed: set<Tab>, ghost half: set<Tab>)
      requires 0 <= i < |items|
      requires NoDup(orig) && tabs == Without(orig, removed0)
      requires forall t :: t in orig ==> t in cur0 && cur0[t] == SnapOf(t)
      requires MergeInv(orig, snap, cur0, items, removed0) && Settled(items, cur0, i, 0)
      modifies this, orig
      ensures NoDup(orig) && tabs == Without(orig, removed)
      ensures forall t :: t in orig ==> t in cur && cur[t] == SnapOf(t)
      ensures removed0 <= removed && (merged <==> removed != removed0)
      ensures forall t :: t in orig ==> t in snap && t in cur
      ensures StateKept(orig, snap, cur) && OutsideUntouched(orig, snap, cur, items)
      ensures !raised ==> MergeInv(orig, snap, cur, items, removed) && half == {}
      ensures !raised ==> Settled(items, cur, i + 1, 0)
      ensures raised ==> |half| == 1 && StoppedInv(orig, snap, cur, items, removed, half)
    {
      cur, removed, merged, half := cur0, removed0, false, {};
      var j := 0;
      while j < |items|
        invariant 0 <= j <= |items|
        invariant NoDup(orig) && tabs == Without(orig, removed)
        invariant forall t :: t in orig ==> t in cur && cur[t] == SnapOf(t)
        invariant removed0 <= removed && (merged <==> removed != removed0)
        invariant MergeInv(orig, snap, cur, items, removed) && Settled(items, cur, i, j) && half == {}
      {
        var stepRaised, stepMerged;
        stepRaised, stepMerged, cur, removed, half := MergeStep(items, i, j, orig, snap, cur, removed);
        merged := merged || stepMerged;
        if stepRaised {
          return true, merged, cur, removed, half;
        }
        j := j + 1;
      }
      raised := false;
    }

    /** One comparison of `optimize_tabs`, `items[i]` against `items[j]`, merging the
        first into the second when both are unmerged and share a name. */
    method MergeStep(items: seq<Tab>, i: int, j: int, ghost orig: seq<Tab>, ghost snap: map<Tab, Snap>,
                     ghost cur0: map<Tab, Snap>, ghost removed0: set<Tab>)
      returns (raised: bool, merged: bool, ghost cur: map<Tab, Snap>, ghost removed: set<Tab>, ghost half: set<Tab>)
      requires 0 <= i < |items| && 0 <= j < |items|
      requires NoDup(orig) && tabs == Without(orig, removed0)
      requires forall t :: t in orig ==> t in cur0 && cur0[t] == SnapOf(t)
      requires MergeInv(orig, snap, cur0, items, removed0) && Settled(items, cur0, i, j)
      modifies this, orig
      ensures NoDup(orig) && tabs == Without(orig, removed)
      ensures forall t :: t in orig ==> t in cur && cur[t] == SnapOf(t)
      ensures removed0 <= removed && (merged <==> removed != removed0)
      ensures !raised ==> MergeInv(orig, snap, cur, items, removed) && Settled(items, cur, i, j + 1) && half == {}
      ensures raised ==> |half| == 1 && StoppedInv(orig, snap, cur, items, removed, half)
    {
      cur, removed, merged, raised, half := cur0, removed0, false, false, {};
      var x, y := items[i], items[j];
      if x != y && x.primary == null && y.primary == null && x.GetName() == y.GetName() {
        assert x !in removed;
        var ok, next := MergePair(x, y, orig, cur, removed);
        GrowthKeepsState(orig, snap, cur, items, removed, i, j, y.Rules());
        if !ok {
          HalfMergeStops(orig, snap, cur, items, removed, i, j);
          cur, raised, half := next, true, {x};
          return;
        }
        MergeKeepsInv(orig, snap, cur, items, removed, i, j, y.Rules());
        MergeSettles(items, cur, i, j, y.Rules());
        cur := next;
        removed := removed + {x};
        merged := true;
      } else {
        SkipSettles(items, cur, i, j);
      }
    }
  }

  /** `items` are the tabs of `orig` that were connected in the states `snap`. */
  ghost predicate LiveIn(orig: seq<Tab>, snap: map<Tab, Snap>, items: seq<Tab>)
    requires forall t :: t in orig ==> t in snap
  {
    forall t :: t in orig ==> (t in items <==> snap[t].handle.Some? && snap[t].socketLive)
  }

  /** Over a whole run of `optimize_tabs`, whether it finishes or raises, every tab only
      gains rules and keeps its remote tab, socket and buffers; a tab that was not
      connected is left alone. `snap` holds the states the run started from. */
  lemma OptimizeKeeps(orig: seq<Tab>, snap: map<Tab, Snap>, cur: map<Tab, Snap>, items: seq<Tab>)
    requires forall t :: t in orig ==> t in snap && t in cur && cur[t] == SnapOf(t)
    requires (forall t :: t in items ==> t in orig) && LiveIn(orig, snap, items)
    requires StateKept(orig, snap, cur) && OutsideUntouched(orig, snap, cur, items)
    ensures forall t :: t in orig ==>
              && RulesGrew(snap[t].rules, t.Rules())
              && t.handle == snap[t].handle && t.socketLive == snap[t].socketLive
              && t.Buffers() == snap[t].buffers
    ensures forall t :: t in orig && !(snap[t].handle.Some? && snap[t].socketLive) ==>
              t.Rules() == snap[t].rules && t.primary == snap[t].primary
  {
    forall t | t in orig
      ensures RulesGrew(snap[t].rules, t.Rules())
      ensures t.handle == snap[t].handle && t.socketLive == snap[t].socketLive && t.Buffers() == snap[t].buffers
      ensures !(snap[t].handle.Some? && snap[t].socketLive) ==> t.Rules() == snap[t].rules && t.primary == snap[t].primary
    {
      assert cur[t] == SnapOf(t);
    }
  }

  /** Wherever `optimize_tabs` stops, every merged tab was connected and unmerged, and
      now points at a connected tab with its name whose rules cover its own. A tab
      half absorbed when the keyword append raised is still cached and points at a
      cached, connected, unmerged tab with its name that holds its patterns and URL
      parts but not its keywords. The other tabs keep their `primary_instance`. Every
      tab holds only rules it or a merged or half-absorbed tab started with, and took
      on no duplicates. */
  lemma OptimizeMerges(orig: seq<Tab>, snap: map<Tab, Snap>, cur: map<Tab, Snap>,
                       items: seq<Tab>, removed: set<Tab>, half: set<Tab>)
    requires forall t :: t in orig ==> t in cur && cur[t] == SnapOf(t)
    requires (forall t :: t in items ==> t in orig) && (forall t :: t in orig ==> t in snap && t in cur)
    requires StateKept(orig, snap, cur) && PrimaryKept(orig, snap, cur, removed + half)
    requires MergedCovered(snap, cur, items, removed) && HalfAbsorbed(snap, cur, items, removed, half)
    requires NothingForeign(orig, snap, cur, removed + half)
    requires LiveIn(orig, snap, items)
    ensures forall t :: t in orig && t !in removed + half ==> t.primary == snap[t].primary
    ensures forall t :: t in removed ==>
              && t in orig && t.IsConnected() && snap[t].primary == null
              && t.primary != null && t.primary in orig && t.primary.IsConnected()
              && t.primary.GetName() == t.GetName()
              && Covers(t.primary.Rules(), t.Rules())
    ensures forall t :: t in half ==>
              && t in orig && t in Without(orig, removed) && t.IsConnected() && snap[t].primary == null
              && t.primary != null && t.primary != t && t.primary in Without(orig, removed)
              && t.primary.IsConnected() && t.primary.primary == null
              && t.primary.GetName() == t.GetName()
              && CoversLists(t.primary.Rules(), t.Rules())
              && MergeIdentity(t.Rules(), t.primary.Rules()).None?
    ensures forall t :: t in orig ==>
              && DrawnFrom(t.Rules(), snap[t].rules, RulesOf(snap, removed + half))
              && (ListsNoDup(snap[t].rules) ==> ListsNoDup(t.Rules()))
  {
    forall t | t in orig ensures t.primary == cur[t].primary && t.Rules() == cur[t].rules {
      assert cur[t] == SnapOf(t);
    }
    forall t | t in removed
      ensures t in orig && t.IsConnected() && snap[t].primary == null
      ensures t.primary != null && t.primary in orig && t.primary.IsConnected()
      ensures t.primary.GetName() == t.GetName() && Covers(t.primary.Rules(), t.Rules())
    {
      var p := cur[t].primary;
      assert t in items && p in items;
      assert cur[t] == SnapOf(t) && cur[p] == SnapOf(p);
    }
    OptimizeHalf(orig, snap, cur, items, removed, half);
  }

  /** The tabs that the tabs of `ps` point at. */
  ghost function Primaries(ps: set<Tab>): set<Tab?>
    reads ps
  {
    set s | s in ps :: s.primary
  }

  /** Wherever `optimize_tabs` stops, a tab no merged or half-absorbed tab points at
      has the rules it started with, and each merged or half-absorbed tab points at a
      tab that comes after it in the cache as it was at entry. */
  lemma OptimizeTargets(orig: seq<Tab>, snap: map<Tab, Snap>, cur: map<Tab, Snap>,
                        items: seq<Tab>, pointers: set<Tab>)
    requires forall t :: t in orig ==> t in snap && t in cur && cur[t] == SnapOf(t)
    requires forall t :: t in items ==> t in orig
    requires OnlySurvivorsGrew(orig, snap, cur, pointers) && PointsForward(items, cur, pointers)
    requires SameOrder(items, orig)
    ensures forall t :: t in orig && t !in Primaries(pointers) ==> t.Rules() == snap[t].rules
    ensures forall t :: t in pointers ==>
              t in orig && t.primary in orig && FirstIndex(orig, t) < FirstIndex(orig, t.primary)
  {
    forall t | t in orig ensures t.Rules() == cur[t].rules && t.primary == cur[t].primary {
      assert cur[t] == SnapOf(t);
    }
    PrimariesOfFields(orig, cur, items, pointers);
    forall t | t in pointers
      ensures t in orig && t.primary in orig && FirstIndex(orig, t) < FirstIndex(orig, t.primary)
    {
      var p: Tab := cur[t].primary;
      assert t in items && p in items && FirstIndex(items, t) < FirstIndex(items, p);
      assert FirstIndex(orig, t) < FirstIndex(orig, p);
      assert cur[t] == SnapOf(t);
    }
  }

  /** Where `cur` holds the tabs' own fields, the tabs pointed at in `cur` are the ones
      the fields point at. */
  lemma PrimariesOfFields(orig: seq<Tab>, cur: map<Tab, Snap>, items: seq<Tab>, pointers: set<Tab>)
    requires forall t :: t in orig ==> t in cur && cur[t] == SnapOf(t)
    requires (forall t :: t in items ==> t in orig) && (forall t :: t in pointers ==> t in items)
    ensures PrimariesOf(cur, pointers) <= Primaries(pointers)
  {
    forall t | t in PrimariesOf(cur, pointers) ensures t in Primaries(pointers) {
      var s: Tab :| s in pointers && s in cur && cur[s].primary == t;
      assert cur[s] == SnapOf(s);
    }
  }

  /** The half-absorbed tab of `OptimizeMerges`, in terms of the tabs' fields. */
  lemma OptimizeHalf(orig: seq<Tab>, snap: map<Tab, Snap>, cur: map<Tab, Snap>,
                     items: seq<Tab>, removed: set<Tab>, half: set<Tab>)
    requires (forall t :: t in items ==> t in orig) && (forall t :: t in orig ==> t in snap && t in cur)
    requires forall t :: t in orig ==> cur[t] == SnapOf(t)
    requires StateKept(orig, snap, cur) && HalfAbsorbed(snap, cur, items, removed, half)
    requires LiveIn(orig, snap, items)
    ensures forall t :: t in half ==>
              && t in orig && t in Without(orig, removed) && t.IsConnected() && snap[t].primary == null
              && t.primary != null && t.primary != t && t.primary in Without(orig, removed)
              && t.primary.IsConnected() && t.primary.primary == null
              && t.primary.GetName() == t.GetName()
              && CoversLists(t.primary.Rules(), t.Rules())
              && MergeIdentity(t.Rules(), t.primary.Rules()).None?
  {
    forall t | t in half
      ensures t in orig && t in Without(orig, removed) && t.IsConnected() && snap[t].primary == null
      ensures t.primary != null && t.primary != t && t.primary in Without(orig, removed)
      ensures t.primary.IsConnected() && t.primary.primary == null && t.primary.GetName() == t.GetName()
      ensures CoversLists(t.primary.Rules(), t.Rules()) && MergeIdentity(t.Rules(), t.primary.Rules()).None?
    {
      var p: Tab := cur[t].primary;
      assert t in items && p in items;
      assert cur[t] == SnapOf(t) && cur[p] == SnapOf(p);
      WithoutElements(orig, removed, t);
      WithoutElements(orig, removed, p);
    }
  }

  /** When `optimize_tabs` finishes, no two distinct tabs left in the cache that are
      connected and unmerged share a name. */
  lemma OptimizeSettles(orig: seq<Tab>, snap: map<Tab, Snap>, cur: map<Tab, Snap>,
                        items: seq<Tab>, removed: set<Tab>)
    requires (forall t :: t in items ==> t in orig) && (forall t :: t in orig ==> t in snap && t in cur)
    requires forall t :: t in orig ==> cur[t] == SnapOf(t)
    requires StateKept(orig, snap, cur) && LiveIn(orig, snap, items)
    requires Settled(items, cur, |items|, 0)
    ensures forall a, b :: a in Without(orig, removed) && b in Without(orig, removed) && a != b
                           && a.IsConnected() && b.IsConnected() && a.primary == null && b.primary == null
                           ==> a.GetName() != b.GetName()
  {
    forall a, b | a in Without(orig, removed) && b in Without(orig, removed) && a != b
                  && a.IsConnected() && b.IsConnected() && a.primary == null && b.primary == null
      ensures a.GetName() != b.GetName()
    {
      WithoutElements(orig, removed, a);
      WithoutElements(orig, removed, b);
      assert cur[a] == SnapOf(a) && cur[b] == SnapOf(b);
      assert a in items && b in items;
      var p :| 0 <= p < |items| && items[p] == a;
      var q :| 0 <= q < |items| && items[q] == b;
    }
  }

  lemma FlattenHasAll<T>(f: seq<seq<T>>)
    ensures forall e :: e in Flatten(f) <==> exists k :: 0 <= k < |f| && e in f[k]
  {
    forall e {
      FlattenHas(f, e);
    }
  }

  lemma {:induction false} FlattenHas<T>(f: seq<seq<T>>, e: T)
    ensures e in Flatten(f) <==> exists k :: 0 <= k < |f| && e in f[k]
  {
    if f != [] {
      var init := f[..|f| - 1];
      FlattenHas(init, e);
      if exists k :: 0 <= k < |f| && e in f[k] {
        var k :| 0 <= k < |f| && e in f[k];
        if k < |f| - 1 {
          assert e in init[k];
        }
      }
    }
  }
}
