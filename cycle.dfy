/** The watcher's operations as functions of its state: the ledger, the
    active-order tracker and the alerts sent so far. Each loop of the source is
    a function of the prefix of its input it has consumed, so that the methods
    of `HyperliquidWatcher` can be proved against them step by step. */
module WatchCycle {
  import opened Records
  import opened EventLedger
  import opened ActiveOrderTracker

  datatype WatchState = WatchState(logs: Ledger, active: ActiveOrders, alerts: seq<Alert>)

  /** What the exchange client returns to one address's turn of the watch
      loop: the open orders, the fills, and the order-status lookups made
      inside `process_orders` and in the loop after `process_fills`. An id
      missing from a status map stands for a lookup that failed or came back
      empty. */
  datatype Poll = Poll(
    openOrders: seq<Order>,
    fills: seq<Fill>,
    vanishedStatuses: map<string, StatusRecord>,
    trackedStatuses: map<string, StatusRecord>)

  function Lookup(statuses: map<string, StatusRecord>, orderId: string): Option<StatusRecord> {
    if orderId in statuses then Some(statuses[orderId]) else None
  }

  /** One iteration of the first loop of `process_orders`. */
  function OrderStep(s: WatchState, address: string, o: Order): (r: WatchState)
    requires Valid(s.active)
    ensures Valid(r.active)
    ensures Live(s.active) ==> Live(r.active)
  {
    if !ValidOrder(o) then s
    else if IsNewEvent(s.logs, ORDERS, o.oid, o.timestamp) then
      WatchState(
        Logged(s.logs, ORDERS, o.oid, o.timestamp),
        Put(s.active, o.oid, Tracked(address, OPEN)),
        s.alerts + [OpenOrderAlert(address, o)])
    else s
  }

  /** The first loop of `process_orders` over the orders seen so far. */
  function ScanOrders(s: WatchState, address: string, orders: seq<Order>): (r: WatchState)
    requires Valid(s.active)
    ensures Valid(r.active)
    ensures Live(s.active) ==> Live(r.active)
    decreases |orders|
  {
    if orders == [] then s
    else OrderStep(ScanOrders(s, address, orders[..|orders| - 1]), address, orders[|orders| - 1])
  }

  /** `current_order_ids`: the ids of the orders that were not skipped. */
  function CurrentOrderIds(orders: seq<Order>): (ids: set<string>)
    ensures forall k :: k in ids <==> exists i :: 0 <= i < |orders| && ValidOrder(orders[i]) && orders[i].oid == k
    decreases |orders|
  {
    if orders == [] then {}
    else
      var last := orders[|orders| - 1];
      var earlier := CurrentOrderIds(orders[..|orders| - 1]);
      if ValidOrder(last) then earlier + {last.oid} else earlier
  }

  /** `check_order_status`, given what the status lookup returned. */
  function StatusCheck(s: WatchState, orderId: string, address: string, lookup: Option<StatusRecord>): (r: WatchState)
    requires Valid(s.active)
    ensures Valid(r.active)
    ensures Live(s.active) ==> Live(r.active)
    ensures forall k :: k != orderId ==> SameEntry(s.active, r.active, k)
    ensures forall t :: t != STATUS_CHANGES ==> EventsOf(r.logs, t) == EventsOf(s.logs, t)
  {
    match lookup
    case None => s
    case Some(rec) =>
      var status := CurrentStatus(rec);
      var key := StatusKey(orderId, status);
      var ts := StatusTimestamp(rec);
      var announce :=
        && status != LastStatus(s.active, orderId)
        && status != OPEN && status != FILLED
        && IsNewEvent(s.logs, STATUS_CHANGES, key, ts);
      WatchState(
        if announce then Logged(s.logs, STATUS_CHANGES, key, ts) else s.logs,
        Settle(s.active, orderId, address, status),
        if announce then s.alerts + [StatusChangeAlert(address, orderId, status, StatusCoin(rec))] else s.alerts)
  }

  /** The tracker update at the end of `check_order_status`: evict on a
      terminal status, otherwise store the status for this address. */
  function Settle(a: ActiveOrders, orderId: string, address: string, status: string): (r: ActiveOrders)
    requires Valid(a)
    ensures Valid(r)
    ensures Live(a) ==> Live(r)
    ensures forall k :: k != orderId ==> SameEntry(a, r, k)
    ensures IsTerminal(status) ==> orderId !in r.entries
    ensures !IsTerminal(status) ==> orderId in r.entries && r.entries[orderId] == Tracked(address, status)
  {
    if IsTerminal(status) then Pop(a, orderId) else Put(a, orderId, Tracked(address, status))
  }

  /** The second loop of `process_orders`, over the first `n` keys of the
      snapshot `snap` taken of the tracker: an order of this address that is
      missing from the listing gets a status check. */
  function VanishedChecks(
    s: WatchState, snap: ActiveOrders, n: nat, current: set<string>,
    address: string, statuses: map<string, StatusRecord>): (r: WatchState)
    requires Valid(s.active) && n <= |snap.keys|
    ensures Valid(r.active)
    ensures Live(s.active) ==> Live(r.active)
    decreases n
  {
    if n == 0 then s
    else
      var prev := VanishedChecks(s, snap, n - 1, current, address, statuses);
      var orderId := snap.keys[n - 1];
      if orderId !in current && orderId in prev.active.entries && prev.active.entries[orderId].address == address
      then StatusCheck(prev, orderId, address, Lookup(statuses, orderId))
      else prev
  }

  /** `process_orders` */
  function OrdersPass(s: WatchState, address: string, orders: seq<Order>, statuses: map<string, StatusRecord>): (r: WatchState)
    requires Valid(s.active)
    ensures Valid(r.active)
    ensures Live(s.active) ==> Live(r.active)
  {
    var scanned := ScanOrders(s, address, orders);
    VanishedChecks(scanned, scanned.active, |scanned.active.keys|, CurrentOrderIds(orders), address, statuses)
  }

  /** One iteration of the loop of `process_fills`. */
  function FillStep(s: WatchState, address: string, f: Fill): (r: WatchState)
    ensures r.active == s.active
  {
    if !ValidFill(f) then s
    else if IsNewEvent(s.logs, FILLS, f.tid, f.time) then
      WatchState(
        Logged(s.logs, FILLS, f.tid, f.time),
        s.active,
        s.alerts + [FillAlert(address, SideLabel(f), f)])
    else s
  }

  /** `process_fills` over the fills seen so far. Fills never touch the tracker. */
  function FillsPass(s: WatchState, address: string, fills: seq<Fill>): (r: WatchState)
    ensures r.active == s.active
    decreases |fills|
  {
    if fills == [] then s
    else FillStep(FillsPass(s, address, fills[..|fills| - 1]), address, fills[|fills| - 1])
  }

  /** The status loop of `watch` over the first `n` items of the snapshot
      `snap`: every order the snapshot holds for this address is checked. */
  function TrackedChecks(
    s: WatchState, snap: ActiveOrders, n: nat,
    address: string, statuses: map<string, StatusRecord>): (r: WatchState)
    requires Valid(s.active) && Valid(snap) && n <= |snap.keys|
    ensures Valid(r.active)
    ensures Live(s.active) ==> Live(r.active)
    decreases n
  {
    if n == 0 then s
    else
      var prev := TrackedChecks(s, snap, n - 1, address, statuses);
      var orderId := snap.keys[n - 1];
      if snap.entries[orderId].address == address
      then StatusCheck(prev, orderId, address, Lookup(statuses, orderId))
      else prev
  }

  /** One address's turn of the watch loop: orders, then fills, then a status
      check of every order tracked for the address. */
  function AddressPass(s: WatchState, address: string, poll: Poll): (r: WatchState)
    requires Valid(s.active)
    ensures Valid(r.active)
    ensures Live(s.active) ==> Live(r.active)
  {
    var afterOrders := OrdersPass(s, address, poll.openOrders, poll.vanishedStatuses);
    var afterFills := FillsPass(afterOrders, address, poll.fills);
    TrackedChecks(afterFills, afterFills.active, |afterFills.active.keys|, address, poll.trackedStatuses)
  }

  /** One pass of the watch loop over the configured addresses, in order. */
  function CyclePass(s: WatchState, addresses: seq<string>, polls: seq<Poll>): (r: WatchState)
    requires Valid(s.active) && |addresses| == |polls|
    ensures Valid(r.active)
    ensures Live(s.active) ==> Live(r.active)
    decreases |addresses|
  {
    if addresses == [] then s
    else
      var n := |addresses| - 1;
      AddressPass(CyclePass(s, addresses[..n], polls[..n]), addresses[n], polls[n])
  }
}
