/** The per-tab transaction engine: the two pending buffers, the payload one commit
    sends, what that payload does to the page, and the bounded retry loop. */
module Transaction {
  import opened Common

  /** `pending_add` (style id to CSS text) and `pending_remove` (ids, in call order). */
  datatype Pending = Pending(add: map<string, string>, remove: seq<string>)

  const NoPending := Pending(map[], [])

  /** `inject_css`: store `css` under the caller's fresh id. */
  function Inject(p: Pending, id: string, css: string): (q: Pending)
    requires id !in p.add
    ensures q.add.Keys == p.add.Keys + {id} && q.add[id] == css && q.remove == p.remove
    ensures forall k :: k in p.add ==> q.add[k] == p.add[k]
  {
    Pending(p.add[id := css], p.remove)
  }

  /** `remove_css`: cancel an uncommitted add, or queue the id for removal. */
  function Remove(p: Pending, id: string): (q: Pending)
    ensures id in p.add ==> q.add.Keys == p.add.Keys - {id} && q.remove == p.remove
    ensures id !in p.add ==> q.add == p.add && q.remove == p.remove + [id]
    ensures forall k :: k in q.add ==> k in p.add && q.add[k] == p.add[k]
  {
    if id in p.add then Pending(p.add - {id}, p.remove) else Pending(p.add, p.remove + [id])
  }

  /** Removing an id right after injecting it puts both buffers back as they were. */
  lemma InjectThenRemove(p: Pending, id: string, css: string)
    requires id !in p.add
    ensures Remove(Inject(p, id, css), id) == p
  {
    assert p.add[id := css] - {id} == p.add;
  }

  /** On empty buffers, inject-then-remove leaves nothing to commit. */
  lemma InjectThenRemoveFromEmpty(id: string, css: string)
    ensures Remove(Inject(NoPending, id, css), id) == NoPending
  {
    InjectThenRemove(NoPending, id, css);
  }

  /** The data one commit sends: `{"add": [{id, css}], "remove": [ids]}`. */
  datatype Payload = Payload(add: map<string, string>, remove: seq<string>)

  /** The payload of a snapshot of the buffers. */
  function PayloadOf(p: Pending): (d: Payload)
    ensures d.add == p.add && d.remove == p.remove
  {
    Payload(p.add, p.remove)
  }

  /** The loader's style nodes in the page, by element id. */
  type Page = map<string, string>

  /** What the committed script does to the page: each add entry creates a style node
      unless a node with that id already exists, then each remove entry deletes the
      node with that id if there is one. */
  function ApplyPayload(page: Page, d: Payload): (after: Page)
    ensures forall id :: id in after <==> (id in page || id in d.add) && id !in d.remove
    ensures forall id :: id in after ==> after[id] == if id in page then page[id] else d.add[id]
  {
    var added := map id | id in page.Keys + d.add.Keys :: if id in page then page[id] else d.add[id];
    map id | id in added && id !in d.remove :: added[id]
  }

  /** Sending the same payload again changes nothing, which is what makes the retry
      loop safe when an attempt took effect but reported failure. */
  lemma {:induction false} ApplyPayloadIdempotent(page: Page, d: Payload)
    ensures ApplyPayload(ApplyPayload(page, d), d) == ApplyPayload(page, d)
  {
    var once := ApplyPayload(page, d);
    var twice := ApplyPayload(once, d);
    assert forall id :: id in twice <==> id in once;
    assert forall id :: id in twice ==> twice[id] == once[id];
  }

  /** What `remove_all_css`'s script does: it removes every node carrying the loader's
      class, i.e. every node any commit created. */
  function ApplyRemoveAll(page: Page): (after: Page)
    ensures forall id :: id !in after
  {
    map[]
  }

  /** An id that `remove_css` queued because it was no longer pending is deleted from
      the page by the next commit, whatever else that commit carries. */
  lemma RemovedIdLeavesPage(page: Page, p: Pending, id: string)
    requires id !in p.add
    ensures id !in ApplyPayload(page, PayloadOf(Remove(p, id)))
  {
  }

  /** CSS injected and committed with no removal queued for its id is on the page under
      that id: with the new text, unless a node with that id was there already. */
  lemma InjectedIdReachesPage(page: Page, p: Pending, id: string, css: string)
    requires id !in p.add && id !in p.remove
    ensures var after := ApplyPayload(page, PayloadOf(Inject(p, id, css)));
      id in after && after[id] == if id in page then page[id] else css
  {
  }

  /** After the remove-everything script, a commit of buffers `p` leaves on the page
      exactly the added styles whose ids were not also queued for removal. */
  lemma CommitAfterRemoveAll(page: Page, p: Pending)
    ensures ApplyPayload(ApplyRemoveAll(page), PayloadOf(p)) == map id | id in p.add && id !in p.remove :: p.add[id]
  {
    var after := ApplyPayload(ApplyRemoveAll(page), PayloadOf(p));
    var expected := map id | id in p.add && id !in p.remove :: p.add[id];
    assert after.Keys == expected.Keys;
  }

  /** The message of a commit whose every attempt failed. */
  const RetryExceeded := "Css Commit Retry Count Exceeded"

  /** The outcome of the `while retry > 0` loop and the number of evaluation attempts
      it made, when attempt `i` succeeds exactly when `outcomes[i]` holds. */
  datatype Attempted = Attempted(result: Outcome, attempts: nat)

  function RetryOutcome(retry: int, outcomes: seq<bool>): Attempted
    requires retry <= |outcomes|
    decreases retry
  {
    if retry <= 0 then Attempted(Failed(RetryExceeded), 0)
    else if outcomes[0] then Attempted(Ok, 1)
    else
      var rest := RetryOutcome(retry - 1, outcomes[1..]);
      Attempted(rest.result, rest.attempts + 1)
  }

  /** The loop succeeds exactly when one of the first `retry` attempts succeeds; then it
      stops at the first success. Otherwise it fails with the retry message after
      exactly `retry` attempts, or none when `retry <= 0`. */
  lemma {:induction false} RetryOutcomeSpec(retry: int, outcomes: seq<bool>)
    requires retry <= |outcomes|
    ensures var a := RetryOutcome(retry, outcomes);
      && (a.result == Ok <==> exists i :: 0 <= i < retry && outcomes[i])
      && (a.result != Ok ==> a.result == Failed(RetryExceeded) && a.attempts == if retry > 0 then retry else 0)
      && (a.result == Ok ==> 1 <= a.attempts <= retry && outcomes[a.attempts - 1]
                             && forall i :: 0 <= i < a.attempts - 1 ==> !outcomes[i])
    decreases retry
  {
    if retry > 0 && !outcomes[0] {
      RetryOutcomeSpec(retry - 1, outcomes[1..]);
      var a := RetryOutcome(retry, outcomes);
      if exists i :: 0 <= i < retry && outcomes[i] {
        var i :| 0 <= i < retry && outcomes[i];
        assert i != 0 && outcomes[1..][i - 1];
      }
      if a.result == Ok {
        forall i | 0 <= i < a.attempts - 1 ensures !outcomes[i] {
          if i > 0 { assert outcomes[i] == outcomes[1..][i - 1]; }
        }
      }
    }
  }

  /** The retry loop of `commit_css_transaction` and `remove_all_css`: it decrements
      `retry` before each attempt and returns on the first success. The 0.2 s sleep
      between attempts is not modelled. */
  method RunRetries(retry: int, outcomes: seq<bool>) returns (a: Attempted)
    requires retry <= |outcomes|
    ensures a == RetryOutcome(retry, outcomes)
  {
    var left := retry;
    var made: nat := 0;
    while left > 0
      invariant made + left == retry
      invariant left >= 0 || made == 0
      invariant RetryOutcome(retry, outcomes) == Shifted(RetryOutcome(left, outcomes[made..]), made)
    {
      left := left - 1;
      var success := outcomes[made];
      made := made + 1;
      if success {
        return Attempted(Ok, made);
      }
    }
    return Attempted(Failed(RetryExceeded), made);
  }

  /** `a` with `n` earlier attempts counted in. */
  function Shifted(a: Attempted, n: nat): Attempted {
    Attempted(a.result, a.attempts + n)
  }
}
