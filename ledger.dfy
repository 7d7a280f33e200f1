/** The deduplication ledger: three namespaces (orders, fills, status
    changes), each mapping an event id to the timestamp recorded for it. */
module EventLedger {

  type Events = map<string, int>
  type Ledger = map<string, Events>

  const ORDERS := "orders"
  const FILLS := "fills"
  const STATUS_CHANGES := "status_changes"

  predicate HasNamespaces(l: Ledger) {
    ORDERS in l && FILLS in l && STATUS_CHANGES in l
  }

  function EmptyLedger(): (l: Ledger)
    ensures HasNamespaces(l)
    ensures forall t :: t in l ==> l[t] == map[]
  {
    map[ORDERS := map[], FILLS := map[], STATUS_CHANGES := map[]]
  }

  /** The namespace `t`, or an empty one when the ledger has none (`logs.get(t, {})`). */
  function EventsOf(l: Ledger, t: string): Events {
    if t in l then l[t] else map[]
  }

  /** An event is new unless its id is recorded in its namespace with exactly
      the same timestamp. */
  predicate IsNewEvent(l: Ledger, t: string, id: string, ts: int) {
    var events := EventsOf(l, t);
    !(id in events && events[id] == ts)
  }

  /** The ledger after recording `id` at `ts` in namespace `t`, creating the
      namespace first when it is missing. */
  function Logged(l: Ledger, t: string, id: string, ts: int): (r: Ledger)
    ensures r.Keys == l.Keys + {t}
    ensures EventsOf(r, t).Keys == EventsOf(l, t).Keys + {id}
    ensures EventsOf(r, t)[id] == ts
    ensures forall x :: x in EventsOf(l, t) && x != id ==> EventsOf(r, t)[x] == EventsOf(l, t)[x]
    ensures forall u :: u != t ==> EventsOf(r, u) == EventsOf(l, u)
  {
    l[t := EventsOf(l, t)[id := ts]]
  }

  /** `id` is recorded in namespace `t` of `l` exactly when it is in `m`, with
      the same timestamp. */
  ghost predicate SameRecord(l: Ledger, m: Ledger, t: string, id: string) {
    && (id in EventsOf(l, t) <==> id in EventsOf(m, t))
    && (id in EventsOf(l, t) ==> EventsOf(l, t)[id] == EventsOf(m, t)[id])
  }

  /** What reading the state file can find. */
  datatype StoredFile =
    | Missing          // the file does not exist
    | Unreadable       // a JSON decode error or any other error while reading
    | NotAnObject      // valid JSON whose top level is not an object
    | Object(contents: Ledger)

  /** `setdefault(t, {})` */
  function WithNamespace(l: Ledger, t: string): Ledger {
    if t in l then l else l[t := map[]]
  }

  /** The ledger the watcher starts from. */
  function LoadLogs(f: StoredFile): (l: Ledger)
    ensures HasNamespaces(l)
    ensures !f.Object? ==> l == EmptyLedger()
    ensures f.Object? ==> forall t :: t in f.contents ==> t in l && l[t] == f.contents[t]
    ensures f.Object? ==> forall t :: t in l && t !in f.contents ==>
              (t == ORDERS || t == FILLS || t == STATUS_CHANGES) && l[t] == map[]
  {
    match f
    case Object(data) => WithNamespace(WithNamespace(WithNamespace(data, ORDERS), FILLS), STATUS_CHANGES)
    case _ => EmptyLedger()
  }

  lemma IsNewEventIff(l: Ledger, t: string, id: string, ts: int)
    ensures !IsNewEvent(l, t, id, ts) <==> t in l && id in l[t] && l[t][id] == ts
  {
  }

  /** After recording, the same (id, timestamp) is no longer new, a different
      timestamp for the same id still is, and every other (namespace, id) is
      judged exactly as before. */
  lemma LoggedDeduplicates(l: Ledger, t: string, id: string, ts: int)
    ensures !IsNewEvent(Logged(l, t, id, ts), t, id, ts)
    ensures forall other :: other != ts ==> IsNewEvent(Logged(l, t, id, ts), t, id, other)
    ensures forall u, x, v :: (u != t || x != id) ==>
              IsNewEvent(Logged(l, t, id, ts), u, x, v) == IsNewEvent(l, u, x, v)
  {
  }

  lemma LoggedKeepsNamespaces(l: Ledger, t: string, id: string, ts: int)
    requires HasNamespaces(l)
    ensures HasNamespaces(Logged(l, t, id, ts))
  {
  }

  /** Writing a ledger that has its three namespaces and loading it again gives
      back the same ledger. */
  lemma LoadSavedLedger(l: Ledger)
    requires HasNamespaces(l)
    ensures LoadLogs(Object(l)) == l
  {
  }

  /** A fresh or reset ledger treats every event as new. */
  lemma EmptyLedgerAllNew(f: StoredFile, t: string, id: string, ts: int)
    requires !f.Object?
    ensures IsNewEvent(LoadLogs(f), t, id, ts)
  {
  }
}
