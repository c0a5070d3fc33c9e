/**
 * The message prefetch scheduler of the session layout page (packages/app/src/pages/layout.tsx).
 *
 * One queue per directory holds the session ids being fetched (`inflight`), the ids waiting
 * (`pending`, with its membership mirror `pendingSet`) and a `running` counter. A request puts
 * a high-priority id at the front and a low-priority id at the back, then trims the back to
 * six entries; pumping starts at most one fetch per directory. A global token, bumped whenever
 * the route's directory or the server changes, marks fetches started earlier as stale: their
 * results are never merged into the store.
 *
 * The asynchronous fetch is split into two events: `Pump` returns the `Fetch` it issues, and
 * `Settle` is the fetch's completion (its `.then` and `.finally`), given the outcome.
 */
module Prefetch {
  import opened Wrappers
  import opened Text
  import opened Sorting

  /** Policy constants: messages per fetch, fetches per directory, waiting ids per directory. */
  const PrefetchChunk: nat := 200
  const PrefetchConcurrency: int := 1
  const PrefetchPendingLimit: nat := 6

  datatype Priority = High | Low

  datatype Queue = Queue(inflight: set<string>, pending: seq<string>, pendingSet: set<string>, running: int)

  const EmptyQueue: Queue := Queue({}, [], {}, 0)

  /** A fetch issued by the scheduler, with the token captured when it was issued. */
  datatype Fetch = Fetch(directory: string, sessionId: string, token: int, limit: nat)

  datatype MessageInfo = MessageInfo(id: string, body: string)
  datatype Part = Part(id: string, body: string)
  datatype FetchedMessage = FetchedMessage(info: MessageInfo, parts: seq<Part>)

  /** How a fetch settled; a missing `data` field is an empty list. */
  datatype Outcome = Failed | Fetched(data: seq<FetchedMessage>)

  predicate Distinct<T(==)>(s: seq<T>) {
    forall i, j :: 0 <= i < j < |s| ==> s[i] != s[j]
  }

  /**
   * The queue invariant. `pendingSet` contains every pending id and, apart from the empty id,
   * nothing else: the source drops a falsy id from `pending` without deleting it from the set.
   */
  ghost predicate QueueValid(q: Queue) {
    && 0 <= q.running <= PrefetchConcurrency
    && q.running == |q.inflight|
    && |q.pending| <= PrefetchPendingLimit
    && Distinct(q.pending)
    && (forall i :: 0 <= i < |q.pending| ==> q.pending[i] in q.pendingSet)
    && (forall id :: id in q.pendingSet && id != "" ==> id in q.pending)
    && q.inflight !! q.pendingSet
  }

  /** The ids the trim loop removes from `pendingSet`: the dropped, non-empty ones. */
  function DroppedIds(dropped: seq<string>): set<string> {
    set i | 0 <= i < |dropped| && dropped[i] != "" :: dropped[i]
  }

  /** The insertion of a new id, front or back according to priority. */
  function Grown(pending: seq<string>, id: string, priority: Priority): (g: seq<string>)
    ensures |g| == |pending| + 1
    ensures priority == High ==> g[0] == id && g[1..] == pending
    ensures priority == Low ==> g[|pending|] == id && g[..|pending|] == pending
  {
    if priority == High then [id] + pending else pending + [id]
  }

  /**
   * The `while` loop that trims `pending` from the back until at most `PrefetchPendingLimit`
   * entries remain, deleting each dropped non-empty id from `pendingSet`.
   */
  method TrimPending(pending: seq<string>, pendingSet: set<string>) returns (kept: seq<string>, keptSet: set<string>)
    ensures |kept| == if |pending| > PrefetchPendingLimit then PrefetchPendingLimit else |pending|
    ensures kept == pending[..|kept|]
    ensures keptSet == pendingSet - DroppedIds(pending[|kept|..])
  {
    kept, keptSet := pending, pendingSet;
    while |kept| > PrefetchPendingLimit
      invariant |pending| >= |kept| >= (if |pending| > PrefetchPendingLimit then PrefetchPendingLimit else |pending|)
      invariant kept == pending[..|kept|]
      invariant keptSet == pendingSet - DroppedIds(pending[|kept|..])
    {
      var dropped := kept[|kept| - 1];
      kept := kept[..|kept| - 1];
      assert pending[|kept|..] == [dropped] + pending[|kept| + 1..];
      assert DroppedIds(pending[|kept|..]) == DroppedIds(pending[|kept| + 1..]) + (if dropped == "" then {} else {dropped});
      if dropped == "" { continue; }
      keptSet := keptSet - {dropped};
    }
  }

  /** The queue after a request has been admitted (before pumping): insert, then trim. */
  function Admit(q: Queue, id: string, priority: Priority): (r: Queue)
    ensures r.inflight == q.inflight && r.running == q.running
    ensures |r.pending| == if |q.pending| < PrefetchPendingLimit then |q.pending| + 1 else PrefetchPendingLimit
    ensures priority == High ==> r.pending[0] == id
    ensures priority == High ==> r.pending[1..] == q.pending[..|r.pending| - 1]
    ensures priority == Low && |q.pending| < PrefetchPendingLimit ==> r.pending == q.pending + [id]
    ensures priority == Low && |q.pending| >= PrefetchPendingLimit ==> r.pending == q.pending[..PrefetchPendingLimit]
  {
    var g := Grown(q.pending, id, priority);
    var n := if |g| > PrefetchPendingLimit then PrefetchPendingLimit else |g|;
    q.(pending := g[..n], pendingSet := (q.pendingSet + {id}) - DroppedIds(g[n..]))
  }

  lemma GrownDistinct(q: Queue, id: string, priority: Priority)
    requires Distinct(q.pending) && id !in q.pending
    ensures Distinct(Grown(q.pending, id, priority))
  {
    var g := Grown(q.pending, id, priority);
    forall i, j | 0 <= i < j < |g| ensures g[i] != g[j] {
      if priority == High {
        if i == 0 { assert g[j] == q.pending[j - 1]; } else { assert g[i] == q.pending[i - 1] && g[j] == q.pending[j - 1]; }
      } else {
        if j == |q.pending| { assert g[i] == q.pending[i]; } else { assert g[i] == q.pending[i] && g[j] == q.pending[j]; }
      }
    }
  }

  lemma GrownMembers(q: Queue, id: string, priority: Priority, x: string)
    requires x in q.pending || x == id
    ensures x in Grown(q.pending, id, priority)
  {
    var g := Grown(q.pending, id, priority);
    if x != id {
      var k :| 0 <= k < |q.pending| && q.pending[k] == x;
      if priority == High { assert g[k + 1] == x; } else { assert g[k] == x; }
    } else if priority == High {
      assert g[0] == x;
    } else {
      assert g[|q.pending|] == x;
    }
  }

  /** Admitting a new id keeps the queue invariant. */
  lemma AdmitValid(q: Queue, id: string, priority: Priority)
    requires QueueValid(q)
    requires id !in q.inflight && id !in q.pendingSet
    ensures QueueValid(Admit(q, id, priority))
  {
    var r := Admit(q, id, priority);
    AdmitDistinct(q, id, priority);
    forall x | x in r.pendingSet && x != "" ensures x in r.pending {
      AdmitListed(q, id, priority, x);
    }
    forall i | 0 <= i < |r.pending| ensures r.pending[i] in r.pendingSet {
      AdmitKeeps(q, id, priority, i);
    }
  }

  lemma AdmitDistinct(q: Queue, id: string, priority: Priority)
    requires QueueValid(q) && id !in q.pendingSet
    ensures Distinct(Admit(q, id, priority).pending)
  {
    var g := Grown(q.pending, id, priority);
    var n := if |g| > PrefetchPendingLimit then PrefetchPendingLimit else |g|;
    assert id !in q.pending;
    GrownDistinct(q, id, priority);
    assert Admit(q, id, priority).pending == g[..n];
  }

  lemma AdmitListed(q: Queue, id: string, priority: Priority, x: string)
    requires QueueValid(q) && id !in q.pendingSet
    requires x in Admit(q, id, priority).pendingSet && x != ""
    ensures x in Admit(q, id, priority).pending
  {
    var g := Grown(q.pending, id, priority);
    var n := if |g| > PrefetchPendingLimit then PrefetchPendingLimit else |g|;
    var r := Admit(q, id, priority);
    GrownMembers(q, id, priority, x);
    forall j | n <= j < |g| ensures g[j] != x { assert g[n..][j - n] == g[j]; }
    var k :| 0 <= k < |g| && g[k] == x;
    assert r.pending[k] == x;
  }

  lemma AdmitKeeps(q: Queue, id: string, priority: Priority, i: nat)
    requires QueueValid(q) && id !in q.pendingSet
    requires i < |Admit(q, id, priority).pending|
    ensures Admit(q, id, priority).pending[i] in Admit(q, id, priority).pendingSet
  {
    var g := Grown(q.pending, id, priority);
    var n := if |g| > PrefetchPendingLimit then PrefetchPendingLimit else |g|;
    assert id !in q.pending;
    GrownDistinct(q, id, priority);
    var x := g[i];
    assert Admit(q, id, priority).pending[i] == x;
    assert x in q.pendingSet + {id} by {
      if priority == High { if i > 0 { assert x == q.pending[i - 1]; } } else { if i < |q.pending| { assert x == q.pending[i]; } }
    }
    assert x !in DroppedIds(g[n..]) by {
      forall k | 0 <= k < |g[n..]| ensures g[n..][k] != x { assert g[n..][k] == g[n + k]; }
    }
  }

  /**
   * `pumpPrefetch` on one queue: when no fetch is running and an id is waiting, the front id
   * moves from `pendingSet` to `inflight` and is returned as the fetch to start.
   */
  function PumpQueue(q: Queue): (r: (Queue, Option<string>))
    ensures q.running >= PrefetchConcurrency || q.pending == [] ==> r == (q, None)
    ensures r.1.Some? ==> q.running < PrefetchConcurrency && q.pending != [] && r.1.value == q.pending[0] != ""
    ensures r.1.Some? ==> r.0 == Queue(q.inflight + {r.1.value}, q.pending[1..], q.pendingSet - {r.1.value}, q.running + 1)
    ensures r.1.None? ==> r.0.inflight == q.inflight && r.0.running == q.running && r.0.pendingSet == q.pendingSet
    ensures QueueValid(q) ==> QueueValid(r.0)
  {
    if q.running >= PrefetchConcurrency then (q, None)
    else if q.pending == [] then (q, None)
    else
      var id := q.pending[0];
      if id == "" then
        (q.(pending := q.pending[1..]), None)
      else
        (Queue(q.inflight + {id}, q.pending[1..], q.pendingSet - {id}, q.running + 1), Some(id))
  }

  /**
   * `prefetchSession` on the directory's queue: an id already in flight or waiting changes
   * nothing; any other id is admitted and the queue pumped.
   */
  function RequestQueue(q: Queue, id: string, priority: Priority): (r: (Queue, Option<string>))
    requires QueueValid(q)
    ensures id in q.inflight || id in q.pendingSet ==> r == (q, None)
    ensures QueueValid(r.0)
    ensures r.0.inflight !! r.0.pendingSet && r.0.running <= PrefetchConcurrency && |r.0.pending| <= PrefetchPendingLimit
  {
    if id in q.inflight || id in q.pendingSet then (q, None)
    else
      AdmitValid(q, id, priority);
      PumpQueue(Admit(q, id, priority))
  }

  /** The `.finally` of a fetch: one slot is freed and the id leaves `inflight`. */
  function SettleQueue(q: Queue, id: string): (r: Queue)
    requires QueueValid(q) && id in q.inflight
    ensures QueueValid(r)
    ensures r.running == 0 && r.inflight == {}
    ensures r.pending == q.pending && r.pendingSet == q.pendingSet
  {
    q.(running := q.running - 1, inflight := q.inflight - {id})
  }

  /** The token-bump effect on one queue: every waiting id is forgotten, in-flight ones are kept. */
  function ClearPending(q: Queue): (r: Queue)
    ensures r.pending == [] && r.pendingSet == {}
    ensures r.inflight == q.inflight && r.running == q.running
    ensures QueueValid(q) ==> QueueValid(r)
  {
    q.(pending := [], pendingSet := {})
  }

  predicate IdLe(a: MessageInfo, b: MessageInfo) { StrLe(a.id, b.id) }
  predicate PartLe(a: Part, b: Part) { StrLe(a.id, b.id) }

  lemma IdOrders()
    ensures TotalPreorder((a: MessageInfo, b: MessageInfo) => IdLe(a, b))
    ensures TotalPreorder((a: Part, b: Part) => PartLe(a, b))
  {
    forall a: string, b: string ensures StrLe(a, b) || StrLe(b, a) { StrLeTotal(a, b); }
    forall a: string, b: string, c: string | StrLe(a, b) && StrLe(b, c) ensures StrLe(a, c) { StrLeTransitive(a, b, c); }
  }

  /** The messages kept from a fetch: those with an id, sorted ascending by id. */
  function SortedMessages(data: seq<FetchedMessage>): (r: seq<MessageInfo>)
    ensures multiset(r) == multiset(Infos(data))
    ensures forall i, j :: 0 <= i < j < |r| ==> StrLe(r[i].id, r[j].id)
    ensures forall i :: 0 <= i < |r| ==> r[i].id != ""
  {
    IdOrders();
    var r := SortBy(Infos(data), (a: MessageInfo, b: MessageInfo) => IdLe(a, b));
    SortBySorted(Infos(data), (a: MessageInfo, b: MessageInfo) => IdLe(a, b));
    forall i | 0 <= i < |r| ensures r[i].id != "" {
      assert r[i] in multiset(Infos(data));
    }
    r
  }

  /** The infos of the fetched messages whose id is present. */
  function Infos(data: seq<FetchedMessage>): (r: seq<MessageInfo>)
    ensures forall i :: 0 <= i < |r| ==> r[i].id != ""
    ensures forall m :: m in r <==> exists i :: 0 <= i < |data| && data[i].info == m && m.id != ""
  {
    if data == [] then []
    else (if data[0].info.id != "" then [data[0].info] else []) + Infos(data[1..])
  }

  /** The parts of one message that have an id, sorted ascending by id. */
  function SortedParts(parts: seq<Part>): (r: seq<Part>)
    ensures multiset(r) == multiset(WithIds(parts))
    ensures forall i, j :: 0 <= i < j < |r| ==> StrLe(r[i].id, r[j].id)
  {
    IdOrders();
    SortBySorted(WithIds(parts), (a: Part, b: Part) => PartLe(a, b));
    SortBy(WithIds(parts), (a: Part, b: Part) => PartLe(a, b))
  }

  function WithIds(parts: seq<Part>): (r: seq<Part>)
    ensures forall p :: p in r <==> p in parts && p.id != ""
  {
    if parts == [] then [] else (if parts[0].id != "" then [parts[0]] else []) + WithIds(parts[1..])
  }

  /** The fetched messages (with an id) in the order of the response. */
  function Items(data: seq<FetchedMessage>): (r: seq<FetchedMessage>)
    ensures forall i :: 0 <= i < |r| ==> r[i].info.id != "" && r[i] in data
    ensures forall m :: m in data && m.info.id != "" ==> m in r
  {
    if data == [] then [] else (if data[0].info.id != "" then [data[0]] else []) + Items(data[1..])
  }

  /** The last item of `items` whose message id is `mid`: the one whose parts the store keeps. */
  function LastWithId(items: seq<FetchedMessage>, mid: string): (r: Option<FetchedMessage>)
    ensures r.Some? ==> r.value in items && r.value.info.id == mid
    ensures r.None? ==> forall i :: 0 <= i < |items| ==> items[i].info.id != mid
  {
    if items == [] then None
    else if items[|items| - 1].info.id == mid then Some(items[|items| - 1])
    else LastWithId(items[..|items| - 1], mid)
  }

  /**
   * The loop that stores, for each fetched message in turn, its parts sorted by id under the
   * message's id (a later message with the same id overwrites an earlier one).
   */
  method MergeParts(parts: map<(string, string), seq<Part>>, directory: string, items: seq<FetchedMessage>)
    returns (r: map<(string, string), seq<Part>>)
    ensures forall d, mid :: (d, mid) in parts && (d != directory || LastWithId(items, mid).None?) ==> (d, mid) in r && r[(d, mid)] == parts[(d, mid)]
    ensures forall mid :: LastWithId(items, mid).Some? ==> (directory, mid) in r && r[(directory, mid)] == SortedParts(LastWithId(items, mid).value.parts)
    ensures forall d, mid :: (d, mid) in r ==> (d, mid) in parts || (d == directory && LastWithId(items, mid).Some?)
  {
    r := parts;
    var i := 0;
    while i < |items|
      invariant 0 <= i <= |items|
      invariant forall d, mid :: (d, mid) in parts && (d != directory || LastWithId(items[..i], mid).None?) ==> (d, mid) in r && r[(d, mid)] == parts[(d, mid)]
      invariant forall mid :: LastWithId(items[..i], mid).Some? ==> (directory, mid) in r && r[(directory, mid)] == SortedParts(LastWithId(items[..i], mid).value.parts)
      invariant forall d, mid :: (d, mid) in r ==> (d, mid) in parts || (d == directory && LastWithId(items[..i], mid).Some?)
    {
      assert items[..i + 1][..i] == items[..i];
      r := r[(directory, items[i].info.id) := SortedParts(items[i].parts)];
      i := i + 1;
    }
    assert items[..i] == items;
  }

  class Scheduler {
    var queues: map<string, Queue>
    var token: int
    /** The store's message lists, keyed by (directory, session id). */
    var messages: map<(string, string), seq<MessageInfo>>
    /** The store's part lists, keyed by (directory, message id). */
    var parts: map<(string, string), seq<Part>>

    ghost predicate Valid()
      reads this
    {
      forall d :: d in queues ==> QueueValid(queues[d])
    }

    constructor ()
      ensures Valid() && queues == map[] && token == 0
      ensures messages == map[] && parts == map[]
    {
      queues, token, messages, parts := map[], 0, map[], map[];
    }

    /** `queueFor`: the directory's queue, created empty on first use. */
    method QueueFor(directory: string) returns (q: Queue)
      requires Valid()
      modifies this
      ensures Valid() && directory in queues && q == queues[directory]
      ensures queues == if directory in old(queues) then old(queues) else old(queues)[directory := EmptyQueue]
      ensures token == old(token) && messages == old(messages) && parts == old(parts)
    {
      if directory in queues {
        q := queues[directory];
      } else {
        q := EmptyQueue;
        queues := queues[directory := q];
      }
    }

    /** `pumpPrefetch`: starts the directory's next fetch when its slot is free. */
    method Pump(directory: string) returns (issued: Option<Fetch>)
      requires Valid()
      modifies this
      ensures Valid() && directory in queues
      ensures var q := if directory in old(queues) then old(queues)[directory] else EmptyQueue;
        && queues == old(queues)[directory := PumpQueue(q).0]
        && issued == (if PumpQueue(q).1.Some? then Some(Fetch(directory, PumpQueue(q).1.value, token, PrefetchChunk)) else None)
      ensures token == old(token) && messages == old(messages) && parts == old(parts)
    {
      var q := QueueFor(directory);
      var p := PumpQueue(q);
      queues := queues[directory := p.0];
      issued := if p.1.Some? then Some(Fetch(directory, p.1.value, token, PrefetchChunk)) else None;
    }

    /**
     * `prefetchSession`: nothing happens for a session without a directory or whose messages
     * are already loaded, or when its id is already in flight or waiting; otherwise the id is
     * admitted and the queue pumped. `loaded` is the store's `message[id] !== undefined`: a
     * session whose messages this scheduler has stored is loaded, and other syncing may have
     * loaded more.
     */
    method Request(directory: string, id: string, priority: Priority, loaded: bool) returns (issued: Option<Fetch>)
      requires Valid()
      requires (directory, id) in messages ==> loaded
      modifies this
      ensures Valid()
      ensures directory == "" || loaded ==> queues == old(queues) && issued == None
      ensures directory != "" && !loaded ==> directory in queues
      ensures directory != "" && !loaded ==>
        var q := if directory in old(queues) then old(queues)[directory] else EmptyQueue;
        var p := RequestQueue(q, id, priority);
        && queues == old(queues)[directory := p.0]
        && issued == (if p.1.Some? then Some(Fetch(directory, p.1.value, token, PrefetchChunk)) else None)
      ensures token == old(token) && messages == old(messages) && parts == old(parts)
    {
      if directory == "" || loaded {
        issued := None;
      } else {
        ghost var before := queues;
        ghost var q := if directory in before then before[directory] else EmptyQueue;
        var _ := QueueFor(directory);
        assert queues == before[directory := q];
        issued := RequestAt(directory, id, priority);
        assert queues == before[directory := q][directory := RequestQueue(q, id, priority).0];
      }
    }

    /** `prefetchSession` on the directory's existing queue. */
    method RequestAt(directory: string, id: string, priority: Priority) returns (issued: Option<Fetch>)
      requires Valid() && directory in queues
      modifies this
      ensures Valid() && directory in queues
      ensures var p := RequestQueue(old(queues)[directory], id, priority);
        && queues == old(queues)[directory := p.0]
        && issued == (if p.1.Some? then Some(Fetch(directory, p.1.value, token, PrefetchChunk)) else None)
      ensures token == old(token) && messages == old(messages) && parts == old(parts)
    {
      var q := queues[directory];
      if id in q.inflight || id in q.pendingSet {
        issued := None;
        assert queues == queues[directory := q];
      } else {
        issued := AdmitAndPump(directory, id, priority);
      }
    }

    /** A new id admitted to the directory's queue, then the queue pumped. */
    method AdmitAndPump(directory: string, id: string, priority: Priority) returns (issued: Option<Fetch>)
      requires Valid() && directory in queues
      requires id !in queues[directory].inflight && id !in queues[directory].pendingSet
      modifies this
      ensures Valid() && directory in queues
      ensures var p := RequestQueue(old(queues)[directory], id, priority);
        && queues == old(queues)[directory := p.0]
        && issued == (if p.1.Some? then Some(Fetch(directory, p.1.value, token, PrefetchChunk)) else None)
      ensures token == old(token) && messages == old(messages) && parts == old(parts)
    {
      ghost var before := queues;
      ghost var admitted := Admit(queues[directory], id, priority);
      assert RequestQueue(queues[directory], id, priority) == PumpQueue(admitted);
      AdmitAt(directory, id, priority);
      issued := Pump(directory);
      assert queues == before[directory := admitted][directory := PumpQueue(admitted).0];
    }

    /** The insertion and the trim loop of `prefetchSession`, on the directory's queue. */
    method AdmitAt(directory: string, id: string, priority: Priority)
      requires Valid() && directory in queues
      requires id !in queues[directory].inflight && id !in queues[directory].pendingSet
      modifies this
      ensures Valid()
      ensures queues == old(queues)[directory := Admit(old(queues)[directory], id, priority)]
      ensures token == old(token) && messages == old(messages) && parts == old(parts)
    {
      var q := queues[directory];
      var kept, keptSet := TrimPending(Grown(q.pending, id, priority), q.pendingSet + {id});
      AdmitValid(q, id, priority);
      queues := queues[directory := q.(pending := kept, pendingSet := keptSet)];
    }

    /** The token-bump effect: a new token, and every queue's waiting list emptied. */
    method InvalidateAll()
      requires Valid()
      modifies this
      ensures Valid()
      ensures token == old(token) + 1
      ensures queues.Keys == old(queues).Keys
      ensures forall d :: d in queues ==> queues[d] == ClearPending(old(queues)[d])
      ensures messages == old(messages) && parts == old(parts)
    {
      token := token + 1;
      queues := map d | d in queues :: ClearPending(queues[d]);
    }

    /**
     * A fetch settles. On success with the token it captured still current, the messages are
     * stored sorted by id and each message's parts sorted by id; a stale or failed fetch
     * changes no stored data. Then the slot is freed and the queue pumped again.
     */
    method Settle(f: Fetch, outcome: Outcome) returns (issued: Option<Fetch>)
      requires Valid()
      requires f.directory in queues && f.sessionId in queues[f.directory].inflight
      modifies this
      ensures Valid()
      ensures token == old(token)
      ensures f.token != token || outcome.Failed? ==> messages == old(messages) && parts == old(parts)
      ensures f.token == token && outcome.Fetched? ==>
        && messages == old(messages)[(f.directory, f.sessionId) := SortedMessages(outcome.data)]
        && (forall mid :: LastWithId(Items(outcome.data), mid).Some? ==>
              (f.directory, mid) in parts && parts[(f.directory, mid)] == SortedParts(LastWithId(Items(outcome.data), mid).value.parts))
        && (forall d, mid :: (d, mid) in old(parts) && (d != f.directory || LastWithId(Items(outcome.data), mid).None?) ==>
              (d, mid) in parts && parts[(d, mid)] == old(parts)[(d, mid)])
      ensures var p := PumpQueue(SettleQueue(old(queues)[f.directory], f.sessionId));
        && queues == old(queues)[f.directory := p.0]
        && issued == (if p.1.Some? then Some(Fetch(f.directory, p.1.value, token, PrefetchChunk)) else None)
    {
      if outcome.Fetched? && f.token == token {
        Store(f.directory, f.sessionId, outcome.data);
      }
      issued := ReleaseAndPump(f.directory, f.sessionId);
    }

    /** The settled fetch's slot freed, then the directory's queue pumped. */
    method ReleaseAndPump(directory: string, sessionId: string) returns (issued: Option<Fetch>)
      requires Valid()
      requires directory in queues && sessionId in queues[directory].inflight
      modifies this
      ensures Valid()
      ensures var p := PumpQueue(SettleQueue(old(queues)[directory], sessionId));
        && queues == old(queues)[directory := p.0]
        && issued == (if p.1.Some? then Some(Fetch(directory, p.1.value, token, PrefetchChunk)) else None)
      ensures token == old(token) && messages == old(messages) && parts == old(parts)
    {
      ghost var before := queues;
      Release(directory, sessionId);
      ghost var settled := SettleQueue(before[directory], sessionId);
      issued := Pump(directory);
      assert queues == before[directory := settled][directory := PumpQueue(settled).0];
    }

    /** A current fetch's result stored: the sorted messages, and each message's sorted parts. */
    method Store(directory: string, sessionId: string, data: seq<FetchedMessage>)
      modifies this
      ensures queues == old(queues) && token == old(token)
      ensures messages == old(messages)[(directory, sessionId) := SortedMessages(data)]
      ensures forall mid :: LastWithId(Items(data), mid).Some? ==>
        (directory, mid) in parts && parts[(directory, mid)] == SortedParts(LastWithId(Items(data), mid).value.parts)
      ensures forall d, mid :: (d, mid) in old(parts) && (d != directory || LastWithId(Items(data), mid).None?) ==>
        (d, mid) in parts && parts[(d, mid)] == old(parts)[(d, mid)]
    {
      messages := messages[(directory, sessionId) := SortedMessages(data)];
      parts := MergeParts(parts, directory, Items(data));
    }

    /** The settled fetch's slot freed in its directory's queue. */
    method Release(directory: string, sessionId: string)
      requires Valid()
      requires directory in queues && sessionId in queues[directory].inflight
      modifies this
      ensures Valid()
      ensures queues == old(queues)[directory := SettleQueue(old(queues)[directory], sessionId)]
      ensures token == old(token) && messages == old(messages) && parts == old(parts)
    {
      queues := queues[directory := SettleQueue(queues[directory], sessionId)];
    }
  }
}
