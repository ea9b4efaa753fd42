/** `Tab`: one logical destination for CSS, with its rules, its remote tab, its pending
    buffers and its merge pointer. */
module Tabs {
  import opened Common
  import opened Matching
  import opened Transaction
  import Text

  class Tab {
    /** `self.tab`: the remote tab it is attached to, if any. */
    var handle: Option<Session>
    /** The remote tab's websocket is present and not closed. */
    var socketLive: bool
    /** `tab_names_regex`, `tab_url_parts`, `keywords`. */
    var patterns: seq<string>
    var urlParts: seq<string>
    var keywords: Keywords
    var pendingAdd: map<string, string>
    var pendingRemove: seq<string>
    /** `primary_instance`: the tab this one was merged into. */
    var primary: Tab?

    /** `Tab(name_mappings, url_parts, extra_keywords)`: no remote tab yet, empty buffers. */
    constructor (patterns: seq<string>, urlParts: seq<string>, keywords: Keywords)
      ensures Rules() == Identity(patterns, urlParts, keywords)
      ensures handle == None && !socketLive && primary == null
      ensures Buffers() == NoPending
    {
      this.handle := None;
      this.socketLive := false;
      this.patterns := patterns;
      this.urlParts := urlParts;
      this.keywords := keywords;
      this.pendingAdd := map[];
      this.pendingRemove := [];
      this.primary := null;
    }

    function Rules(): Identity
      reads this
    {
      Identity(patterns, urlParts, keywords)
    }

    function Buffers(): Pending
      reads this
    {
      Pending(pendingAdd, pendingRemove)
    }

    /** `get_name`: the remote tab's title, `None` when there is no remote tab. */
    function GetName(): (name: Option<string>)
      reads this
      ensures name.Some? <==> handle.Some?
      ensures name.Some? ==> name.value == handle.value.title
    {
      match handle
      case None => None
      case Some(s) => Some(s.title)
    }

    /** `is_connected`: a remote tab is attached and its socket is live. */
    predicate IsConnected()
      reads this
    {
      handle.Some? && socketLive
    }

    /** `compare(name)`. */
    predicate Compare(name: string)
      reads this
    {
      CompareIdentity(Rules(), GetName(), name)
    }

    /** `inject_css`: the caller supplies the fresh id that the source draws from
        `uuid4`; it is stored in `pending_add` and returned. */
    method InjectCss(css: string, id: string) returns (r: string)
      requires id !in pendingAdd
      modifies this`pendingAdd
      ensures r == id
      ensures Buffers() == Inject(old(Buffers()), id, css)
    {
      pendingAdd := pendingAdd[id := css];
      r := id;
    }

    /** `remove_css`. */
    method RemoveCss(id: string)
      modifies this`pendingAdd, this`pendingRemove
      ensures Buffers() == Remove(old(Buffers()), id)
    {
      if id in pendingAdd {
        pendingAdd := pendingAdd - {id};
      } else {
        pendingRemove := pendingRemove + [id];
      }
    }

    /** The mapping-file rule for a query that resolved to this tab:
        `if split[1] not in tab.tab_names_regex: tab.tab_names_regex.append(split[1])`. */
    method AddPattern(p: string)
      modifies this`patterns
      ensures patterns == UnionInto(old(patterns), [p])
      ensures p in patterns && old(patterns) <= patterns && |patterns| <= |old(patterns)| + 1
    {
      assert [p][..0] == [];
      if p !in patterns {
        patterns := patterns + [p];
      }
    }

    /** The body of a merge in `optimize_tabs`, with this tab as `x` and `y` the tab it
        is merged into: `x.primary_instance = y`, then `y` takes every pattern, URL part
        and keyword of `x` that it lacks. Returns false where the source raises
        `AttributeError` because `y`'s keywords are a string; `y` has then taken the
        patterns and URL parts but not the keywords. */
    method MergeInto(y: Tab) returns (ok: bool)
      requires y != this
      modifies this`primary, y`patterns, y`urlParts, y`keywords
      ensures primary == y
      ensures y.patterns == UnionInto(old(y.patterns), patterns)
      ensures y.urlParts == UnionInto(old(y.urlParts), urlParts)
      ensures ok <==> MergeIdentity(Rules(), old(y.Rules())).Some?
      ensures ok ==> y.Rules() == MergeIdentity(Rules(), old(y.Rules())).value
      ensures !ok ==> y.keywords == old(y.keywords)
    {
      primary := y;
      y.patterns := AppendNew(y.patterns, patterns);
      y.urlParts := AppendNew(y.urlParts, urlParts);
      var items := KeywordItems(keywords);
      match y.keywords
      case KeywordList(l) =>
        var l' := AppendNew(l, items);
        y.keywords := KeywordList(l');
        ok := true;
      case KeywordText(t) =>
        // `t.append` is never reached when every item is already a substring of `t`
        ok := forall i :: 0 <= i < |items| ==> Text.Contains(t, items[i]);
    }

    /** `commit_css_transaction(retry)`: `outcomes[i]` is whether evaluation attempt `i`
        succeeds. Both buffers end empty whatever happens: a failed snapshot is
        dropped, not put back. Empty buffers succeed at once, sending nothing;
        otherwise the snapshot goes out as one payload under the retry loop. */
    method CommitCssTransaction(retry: int, outcomes: seq<bool>)
      returns (r: Outcome, sent: Option<Payload>, attempts: nat)
      requires retry <= |outcomes|
      modifies this`pendingAdd, this`pendingRemove
      ensures Buffers() == NoPending
      ensures old(Buffers()) == NoPending ==> r == Ok && sent == None && attempts == 0
      ensures old(Buffers()) != NoPending ==>
                sent == Some(PayloadOf(old(Buffers())))
                && Attempted(r, attempts) == RetryOutcome(retry, outcomes)
    {
      var snapshot := Buffers();
      if |snapshot.add| + |snapshot.remove| == 0 {
        assert snapshot.add == map[];
        return Ok, None, 0;
      }
      pendingAdd := map[];
      pendingRemove := [];
      sent := Some(PayloadOf(snapshot));
      var a := RunRetries(retry, outcomes);
      r, attempts := a.result, a.attempts;
    }

    /** `remove_all_css(retry)`: drop both buffers, then run the remove-everything
        script under the same retry loop. */
    method RemoveAllCss(retry: int, outcomes: seq<bool>) returns (r: Outcome, attempts: nat)
      requires retry <= |outcomes|
      modifies this`pendingAdd, this`pendingRemove
      ensures Buffers() == NoPending
      ensures Attempted(r, attempts) == RetryOutcome(retry, outcomes)
    {
      pendingAdd := map[];
      pendingRemove := [];
      var a := RunRetries(retry, outcomes);
      r, attempts := a.result, a.attempts;
    }
  }
}
