/** `HyperliquidWatcher`: the ledger and the active-order tracker as fields
    updated in place, with the alert handler's log and the state file beside
    them. Every method is proved to leave the state the matching function of
    `WatchCycle` computes. */
module Watcher {
  import opened Records
  import opened EventLedger
  import opened ActiveOrderTracker
  import opened WatchCycle

  class HyperliquidWatcher {
    const addresses: seq<string>
    var logs: Ledger
    var activeOrders: ActiveOrders
    /** Every message handed to the alert handler, oldest first. */
    var alerts: seq<Alert>
    /** The contents of the state file on disk. */
    var stateFile: StoredFile

    /** Besides the tracker's own invariants: a restart at any moment would
        load exactly the ledger held in memory. */
    ghost predicate Valid()
      reads this
    {
      && ActiveOrderTracker.Valid(activeOrders)
      && Live(activeOrders)
      && HasNamespaces(logs)
      && LoadLogs(stateFile) == logs
    }

    function State(): WatchState
      reads this
    {
      WatchState(logs, activeOrders, alerts)
    }

    /** Construction reads the state file once; nothing is tracked yet. */
    constructor (addresses: seq<string>, file: StoredFile)
      ensures Valid()
      ensures this.addresses == addresses
      ensures logs == LoadLogs(file) && stateFile == file
      ensures activeOrders.entries == map[] && alerts == []
    {
      this.addresses := addresses;
      logs := LoadLogs(file);
      activeOrders := NoOrders();
      alerts := [];
      stateFile := file;
    }

    /** `save_logs`: the whole ledger overwrites the state file. */
    method SaveLogs()
      requires HasNamespaces(logs)
      modifies this
      ensures stateFile == Object(logs) && LoadLogs(stateFile) == logs
      ensures logs == old(logs) && activeOrders == old(activeOrders) && alerts == old(alerts)
    {
      stateFile := Object(logs);
      LoadSavedLedger(logs);
    }

    /** `log_event`: record one event and write the ledger through. */
    method LogEvent(eventType: string, eventId: string, timestamp: int)
      requires Valid()
      modifies this
      ensures Valid()
      ensures logs == Logged(old(logs), eventType, eventId, timestamp)
      ensures stateFile == Object(logs)
      ensures activeOrders == old(activeOrders) && alerts == old(alerts)
    {
      if eventType !in logs {
        logs := logs[eventType := map[]];
      }
      assert logs[eventType] == EventsOf(old(logs), eventType);
      logs := logs[eventType := logs[eventType][eventId := timestamp]];
      assert logs == old(logs)[eventType := EventsOf(old(logs), eventType)[eventId := timestamp]];
      SaveLogs();
    }

    /** `check_order_status`, with the lookup's result as a parameter. */
    method CheckOrderStatus(orderId: string, address: string, statusData: Option<StatusRecord>)
      requires Valid()
      modifies this
      ensures Valid()
      ensures State() == StatusCheck(old(State()), orderId, address, statusData)
      ensures stateFile == old(stateFile) || stateFile == Object(logs)
    {
      if statusData.None? {
        return;
      }
      var rec := statusData.value;
      var currentStatus := CurrentStatus(rec);
      var lastStatus := LastStatus(activeOrders, orderId);
      if currentStatus != lastStatus && currentStatus != OPEN && currentStatus != FILLED {
        var statusKey := StatusKey(orderId, currentStatus);
        var timestamp := StatusTimestamp(rec);
        if IsNewEvent(logs, STATUS_CHANGES, statusKey, timestamp) {
          alerts := alerts + [StatusChangeAlert(address, orderId, currentStatus, StatusCoin(rec))];
          LogEvent(STATUS_CHANGES, statusKey, timestamp);
        }
      }
      if IsTerminal(currentStatus) {
        activeOrders := Pop(activeOrders, orderId);
      } else {
        activeOrders := Put(activeOrders, orderId, Tracked(address, currentStatus));
      }
      assert activeOrders == Settle(old(activeOrders), orderId, address, currentStatus);
    }

    /** `process_orders`: announce and track the new open orders, then check
        the status of this address's tracked orders that left the listing. */
    method ProcessOrders(address: string, orders: seq<Order>, statuses: map<string, StatusRecord>)
      requires Valid()
      modifies this
      ensures Valid()
      ensures State() == OrdersPass(old(State()), address, orders, statuses)
      ensures stateFile == old(stateFile) || stateFile == Object(logs)
    {
      var currentOrderIds := ScanOpenOrders(address, orders);
      CheckVanishedOrders(address, currentOrderIds, statuses);
    }

    /** The first loop of `process_orders`; returns `current_order_ids`. */
    method ScanOpenOrders(address: string, orders: seq<Order>) returns (currentOrderIds: set<string>)
      requires Valid()
      modifies this
      ensures Valid()
      ensures State() == ScanOrders(old(State()), address, orders)
      ensures currentOrderIds == CurrentOrderIds(orders)
      ensures stateFile == old(stateFile) || stateFile == Object(logs)
    {
      currentOrderIds := {};
      for i := 0 to |orders|
        invariant Valid()
        invariant stateFile == old(stateFile) || stateFile == Object(logs)
        invariant State() == ScanOrders(old(State()), address, orders[..i])
        invariant currentOrderIds == CurrentOrderIds(orders[..i])
      {
        assert orders[..i + 1][..i] == orders[..i];
        var order := orders[i];
        ghost var before := State();
        assert ScanOrders(old(State()), address, orders[..i + 1]) == OrderStep(before, address, order);
        if order.oid == "" || order.timestamp == 0 {
          continue;
        }
        currentOrderIds := currentOrderIds + {order.oid};
        if IsNewEvent(logs, ORDERS, order.oid, order.timestamp) {
          alerts := alerts + [OpenOrderAlert(address, order)];
          LogEvent(ORDERS, order.oid, order.timestamp);
          assert stateFile == Object(logs);
          activeOrders := Put(activeOrders, order.oid, Tracked(address, OPEN));
          assert State() == OrderStep(before, address, order);
        }
      }
      assert orders[..|orders|] == orders;
    }

    /** The second loop of `process_orders`, over a snapshot of the tracked
        ids. Each id of the snapshot is still tracked, unchanged, when its turn
        comes, so the lookup of its address never fails. */
    method CheckVanishedOrders(address: string, currentOrderIds: set<string>, statuses: map<string, StatusRecord>)
      requires Valid()
      modifies this
      ensures Valid()
      ensures State() == VanishedChecks(old(State()), old(activeOrders), |old(activeOrders).keys|, currentOrderIds, address, statuses)
      ensures stateFile == old(stateFile) || stateFile == Object(logs)
    {
      var snapshot := activeOrders;
      assert ActiveOrderTracker.Valid(snapshot);
      for i := 0 to |snapshot.keys|
        invariant Valid()
        invariant stateFile == old(stateFile) || stateFile == Object(logs)
        invariant State() == VanishedChecks(old(State()), snapshot, i, currentOrderIds, address, statuses)
        invariant forall j :: i <= j < |snapshot.keys| ==> SameEntry(snapshot, activeOrders, snapshot.keys[j])
      {
        var orderId := snapshot.keys[i];
        assert orderId in activeOrders.entries;
        ghost var before := activeOrders;
        ghost var beforeState := State();
        if orderId !in currentOrderIds && activeOrders.entries[orderId].address == address {
          CheckOrderStatus(orderId, address, Lookup(statuses, orderId));
          assert State() == StatusCheck(beforeState, orderId, address, Lookup(statuses, orderId));
        }
        forall j | i + 1 <= j < |snapshot.keys|
          ensures SameEntry(snapshot, activeOrders, snapshot.keys[j])
        {
          assert snapshot.keys[j] != orderId;
          assert SameEntry(before, activeOrders, snapshot.keys[j]);
        }
      }
    }

    /** `process_fills`: announce and record the new fills. */
    method ProcessFills(address: string, fills: seq<Fill>)
      requires Valid()
      modifies this
      ensures Valid()
      ensures State() == FillsPass(old(State()), address, fills)
      ensures stateFile == old(stateFile) || stateFile == Object(logs)
    {
      for i := 0 to |fills|
        invariant Valid()
        invariant stateFile == old(stateFile) || stateFile == Object(logs)
        invariant State() == FillsPass(old(State()), address, fills[..i])
      {
        assert fills[..i + 1][..i] == fills[..i];
        var fill := fills[i];
        if fill.tid == "" || fill.time == 0 {
          continue;
        }
        if IsNewEvent(logs, FILLS, fill.tid, fill.time) {
          alerts := alerts + [FillAlert(address, SideLabel(fill), fill)];
          LogEvent(FILLS, fill.tid, fill.time);
        }
      }
      assert fills[..|fills|] == fills;
    }

    /** The body of the watch loop for one address. */
    method WatchAddress(address: string, poll: Poll)
      requires Valid()
      modifies this
      ensures Valid()
      ensures State() == AddressPass(old(State()), address, poll)
      ensures stateFile == old(stateFile) || stateFile == Object(logs)
    {
      ProcessOrders(address, poll.openOrders, poll.vanishedStatuses);
      ProcessFills(address, poll.fills);
      ghost var afterFills := State();
      var snapshot := activeOrders;
      for i := 0 to |snapshot.keys|
        invariant Valid()
        invariant stateFile == old(stateFile) || stateFile == Object(logs)
        invariant State() == TrackedChecks(afterFills, snapshot, i, address, poll.trackedStatuses)
      {
        var orderId := snapshot.keys[i];
        var data := snapshot.entries[orderId];
        if data.address == address {
          CheckOrderStatus(orderId, address, Lookup(poll.trackedStatuses, orderId));
        }
      }
    }

    /** One pass of the watch loop: every configured address in turn, each
        with what the exchange returned for it. */
    method WatchPass(polls: seq<Poll>)
      requires Valid() && |polls| == |addresses|
      modifies this
      ensures Valid()
      ensures State() == CyclePass(old(State()), addresses, polls)
      ensures stateFile == old(stateFile) || stateFile == Object(logs)
    {
      for i := 0 to |addresses|
        invariant Valid()
        invariant stateFile == old(stateFile) || stateFile == Object(logs)
        invariant State() == CyclePass(old(State()), addresses[..i], polls[..i])
      {
        assert addresses[..i + 1][..i] == addresses[..i];
        assert polls[..i + 1][..i] == polls[..i];
        ghost var before := State();
        assert CyclePass(old(State()), addresses[..i + 1], polls[..i + 1]) == AddressPass(before, addresses[i], polls[i]);
        WatchAddress(addresses[i], polls[i]);
      }
      assert addresses[..|addresses|] == addresses;
      assert polls[..|polls|] == polls;
    }
  }
}
