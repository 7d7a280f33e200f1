/** What the watcher promises, proved about the functions of `WatchCycle`:
    deduplication, re-alerting on a changed timestamp, skipping malformed
    records, eviction on terminal statuses, and which tracked orders a pass
    may touch. */
module WatchProperties {
  import opened Records
  import opened EventLedger
  import opened ActiveOrderTracker
  import opened WatchCycle

  // ---------------------------------------------------------------------
  // process_orders: the scan of the open-orders listing

  lemma ScanOrdersAppend(s: WatchState, address: string, orders: seq<Order>, o: Order)
    requires Valid(s.active)
    ensures ScanOrders(s, address, orders + [o]) == OrderStep(ScanOrders(s, address, orders), address, o)
  {
    assert (orders + [o])[..|orders|] == orders;
  }

  /** An order is announced exactly when it is well-formed and new; it is then
      recorded and tracked as open for this address. Otherwise nothing changes. */
  lemma OrderStepAlertsIffNew(s: WatchState, address: string, o: Order)
    requires Valid(s.active)
    ensures var r := OrderStep(s, address, o);
      && (|r.alerts| != |s.alerts| <==> ValidOrder(o) && IsNewEvent(s.logs, ORDERS, o.oid, o.timestamp))
      && (ValidOrder(o) && IsNewEvent(s.logs, ORDERS, o.oid, o.timestamp) ==>
            && r.alerts == s.alerts + [OpenOrderAlert(address, o)]
            && !IsNewEvent(r.logs, ORDERS, o.oid, o.timestamp)
            && o.oid in r.active.entries && r.active.entries[o.oid] == Tracked(address, OPEN))
      && (!ValidOrder(o) || !IsNewEvent(s.logs, ORDERS, o.oid, o.timestamp) ==> r == s)
  {
    LoggedDeduplicates(s.logs, ORDERS, o.oid, o.timestamp);
  }

  /** A copy of an order that immediately follows the first one changes nothing. */
  lemma DuplicateOrderIgnored(s: WatchState, address: string, o: Order)
    requires Valid(s.active)
    ensures OrderStep(OrderStep(s, address, o), address, o) == OrderStep(s, address, o)
  {
    LoggedDeduplicates(s.logs, ORDERS, o.oid, o.timestamp);
  }

  /** An order id already recorded with another timestamp is announced again. */
  lemma ChangedTimestampRealerts(s: WatchState, address: string, o: Order)
    requires Valid(s.active) && ValidOrder(o)
    requires o.oid in EventsOf(s.logs, ORDERS) && EventsOf(s.logs, ORDERS)[o.oid] != o.timestamp
    ensures OrderStep(s, address, o).alerts == s.alerts + [OpenOrderAlert(address, o)]
  {
  }

  /** The orders of a listing that are not skipped, in their order. */
  function ValidOrders(orders: seq<Order>): (r: seq<Order>)
    ensures forall o :: o in r ==> o in orders && ValidOrder(o)
    decreases |orders|
  {
    if orders == [] then []
    else
      var last := orders[|orders| - 1];
      ValidOrders(orders[..|orders| - 1]) + (if ValidOrder(last) then [last] else [])
  }

  /** Malformed orders (empty id or zero timestamp) have no effect at all. */
  lemma {:induction false} ScanOrdersSkipsInvalid(s: WatchState, address: string, orders: seq<Order>)
    requires Valid(s.active)
    ensures ScanOrders(s, address, orders) == ScanOrders(s, address, ValidOrders(orders))
    decreases |orders|
  {
    if orders != [] {
      var n := |orders| - 1;
      var init, last := orders[..n], orders[n];
      ScanOrdersSkipsInvalid(s, address, init);
      assert ScanOrders(s, address, orders) == OrderStep(ScanOrders(s, address, init), address, last);
      if ValidOrder(last) {
        assert ValidOrders(orders) == ValidOrders(init) + [last];
        ScanOrdersAppend(s, address, ValidOrders(init), last);
      } else {
        assert ValidOrders(orders) == ValidOrders(init);
      }
    }
  }

  /** No order id appears in the listing with two different timestamps. */
  ghost predicate ConsistentOrders(orders: seq<Order>) {
    forall i, j ::
      (0 <= i < |orders| && 0 <= j < |orders| && ValidOrder(orders[i]) && ValidOrder(orders[j])
       && orders[i].oid == orders[j].oid) ==> orders[i].timestamp == orders[j].timestamp
  }

  ghost predicate OrdersKnown(l: Ledger, orders: seq<Order>) {
    forall i :: 0 <= i < |orders| && ValidOrder(orders[i]) ==>
      !IsNewEvent(l, ORDERS, orders[i].oid, orders[i].timestamp)
  }

  /** After a scan, every well-formed order of a consistent listing is recorded. */
  lemma {:induction false} ScanOrdersRecordsAll(s: WatchState, address: string, orders: seq<Order>)
    requires Valid(s.active) && ConsistentOrders(orders)
    ensures OrdersKnown(ScanOrders(s, address, orders).logs, orders)
    decreases |orders|
  {
    if orders != [] {
      var n := |orders| - 1;
      var init := orders[..n];
      var last := orders[n];
      assert ConsistentOrders(init) by {
        forall i, j | 0 <= i < |init| && 0 <= j < |init|
          ensures ValidOrder(init[i]) && ValidOrder(init[j]) && init[i].oid == init[j].oid ==> init[i].timestamp == init[j].timestamp
        {
          assert init[i] == orders[i] && init[j] == orders[j];
        }
      }
      ScanOrdersRecordsAll(s, address, init);
      var prev := ScanOrders(s, address, init);
      LoggedDeduplicates(prev.logs, ORDERS, last.oid, last.timestamp);
      forall i | 0 <= i < |orders| && ValidOrder(orders[i])
        ensures !IsNewEvent(ScanOrders(s, address, orders).logs, ORDERS, orders[i].oid, orders[i].timestamp)
      {
        if i < n {
          assert orders[i] == init[i];
        }
      }
    }
  }

  /** A scan of orders that are all recorded already changes nothing: no alert,
      no ledger write, and no order (re)enters the tracker. */
  lemma {:induction false} ScanKnownOrdersIsNoop(s: WatchState, address: string, orders: seq<Order>)
    requires Valid(s.active) && OrdersKnown(s.logs, orders)
    ensures ScanOrders(s, address, orders) == s
    decreases |orders|
  {
    if orders != [] {
      var n := |orders| - 1;
      assert OrdersKnown(s.logs, orders[..n]) by {
        forall i | 0 <= i < n && ValidOrder(orders[..n][i])
          ensures !IsNewEvent(s.logs, ORDERS, orders[..n][i].oid, orders[..n][i].timestamp)
        {
          assert orders[..n][i] == orders[i];
        }
      }
      ScanKnownOrdersIsNoop(s, address, orders[..n]);
    }
  }

  /** Two back-to-back scans of the same listing announce and record each
      order once. Across whole turns of the watch loop, see `AddressPassDedup`. */
  lemma ScanOrdersIdempotent(s: WatchState, address: string, orders: seq<Order>)
    requires Valid(s.active) && ConsistentOrders(orders)
    ensures ScanOrders(ScanOrders(s, address, orders), address, orders) == ScanOrders(s, address, orders)
  {
    ScanOrdersRecordsAll(s, address, orders);
    ScanKnownOrdersIsNoop(ScanOrders(s, address, orders), address, orders);
  }

  /** A scan only appends alerts, at most as many as the listing has orders,
      each announcing a well-formed order of the listing for this address. */
  lemma {:induction false} ScanOrdersAlerts(s: WatchState, address: string, orders: seq<Order>)
    requires Valid(s.active)
    ensures var r := ScanOrders(s, address, orders);
      && |s.alerts| <= |r.alerts| <= |s.alerts| + |orders|
      && r.alerts[..|s.alerts|] == s.alerts
      && forall i :: |s.alerts| <= i < |r.alerts| ==>
           r.alerts[i].OpenOrderAlert? && r.alerts[i].address == address
           && r.alerts[i].order in orders && ValidOrder(r.alerts[i].order)
    decreases |orders|
  {
    if orders != [] {
      var n := |orders| - 1;
      ScanOrdersAlerts(s, address, orders[..n]);
      var prev := ScanOrders(s, address, orders[..n]);
      assert prev.alerts[..|s.alerts|] == s.alerts;
      var r := ScanOrders(s, address, orders);
      forall i | |s.alerts| <= i < |r.alerts|
        ensures r.alerts[i].OpenOrderAlert? && r.alerts[i].address == address
          && r.alerts[i].order in orders && ValidOrder(r.alerts[i].order)
      {
        if i < |prev.alerts| {
          assert r.alerts[i] == prev.alerts[i];
        }
      }
    }
  }

  /** Ids outside `current_order_ids` (in particular every skipped order) are
      left alone by the scan, in the tracker and in the ledger, and only the
      orders namespace is written. */
  lemma {:induction false} ScanOrdersFrame(s: WatchState, address: string, orders: seq<Order>)
    requires Valid(s.active)
    ensures var r := ScanOrders(s, address, orders);
      && (forall k :: k !in CurrentOrderIds(orders) ==>
            SameEntry(s.active, r.active, k) && SameRecord(s.logs, r.logs, ORDERS, k))
      && (forall t :: t != ORDERS ==> EventsOf(r.logs, t) == EventsOf(s.logs, t))
    decreases |orders|
  {
    if orders != [] {
      var n := |orders| - 1;
      ScanOrdersFrame(s, address, orders[..n]);
      var prev := ScanOrders(s, address, orders[..n]);
      var last := orders[n];
      assert ScanOrders(s, address, orders) == OrderStep(prev, address, last);
      assert CurrentOrderIds(orders[..n]) <= CurrentOrderIds(orders);
      if ValidOrder(last) {
        assert last.oid in CurrentOrderIds(orders);
      }
    }
  }

  // ---------------------------------------------------------------------
  // check_order_status

  /** A failed or empty lookup changes nothing. */
  lemma NoStatusNoChange(s: WatchState, orderId: string, address: string)
    requires Valid(s.active)
    ensures StatusCheck(s, orderId, address, None) == s
  {
  }

  /** A status change is announced exactly when the status differs from the
      last one seen (an untracked order counts as "unknown"), is neither
      "open" nor "filled", and its key is new with the status's timestamp. A
      terminal status evicts the order; any other status, "filled" included,
      becomes the order's last status under this address. */
  lemma StatusCheckDecides(s: WatchState, orderId: string, address: string, rec: StatusRecord)
    requires Valid(s.active)
    ensures var r := StatusCheck(s, orderId, address, Some(rec));
      var status := CurrentStatus(rec);
      var key := StatusKey(orderId, status);
      var announce :=
        status != LastStatus(s.active, orderId) && status != OPEN && status != FILLED
        && IsNewEvent(s.logs, STATUS_CHANGES, key, StatusTimestamp(rec));
      && (announce ==>
            && r.alerts == s.alerts + [StatusChangeAlert(address, orderId, status, StatusCoin(rec))]
            && r.logs == Logged(s.logs, STATUS_CHANGES, key, StatusTimestamp(rec)))
      && (!announce ==> r.alerts == s.alerts && r.logs == s.logs)
      && (IsTerminal(status) ==> orderId !in r.active.entries)
      && (!IsTerminal(status) ==> orderId in r.active.entries && r.active.entries[orderId] == Tracked(address, status))
  {
  }

  /** "filled" neither alerts nor evicts. */
  lemma FilledStaysTracked(s: WatchState, orderId: string, address: string, rec: StatusRecord)
    requires Valid(s.active) && CurrentStatus(rec) == FILLED
    ensures var r := StatusCheck(s, orderId, address, Some(rec));
      && r.alerts == s.alerts && r.logs == s.logs
      && orderId in r.active.entries && r.active.entries[orderId] == Tracked(address, FILLED)
  {
  }

  /** Checking an order twice against the same answer is the same as checking
      it once: no second alert, no second ledger write. */
  lemma StatusCheckIdempotent(s: WatchState, orderId: string, address: string, lookup: Option<StatusRecord>)
    requires Valid(s.active) && Live(s.active)
    ensures StatusCheck(StatusCheck(s, orderId, address, lookup), orderId, address, lookup)
         == StatusCheck(s, orderId, address, lookup)
  {
    if lookup.Some? {
      var rec := lookup.value;
      var status := CurrentStatus(rec);
      var key := StatusKey(orderId, status);
      var ts := StatusTimestamp(rec);
      var r := StatusCheck(s, orderId, address, lookup);
      LoggedDeduplicates(s.logs, STATUS_CHANGES, key, ts);
      if IsTerminal(status) {
        assert status != LastStatus(s.active, orderId);
        assert !IsNewEvent(r.logs, STATUS_CHANGES, key, ts);
      } else {
        PutTwice(s.active, orderId, Tracked(address, status));
      }
    }
  }

  // ---------------------------------------------------------------------
  // process_orders: the checks of vanished orders

  /** The checks of vanished orders touch only tracked orders of this address
      that are missing from the listing, never add an order, and write only
      the status-changes namespace. */
  lemma {:induction false} VanishedChecksFrame(
    s: WatchState, n: nat, current: set<string>, address: string, statuses: map<string, StatusRecord>)
    requires Valid(s.active) && n <= |s.active.keys|
    ensures var r := VanishedChecks(s, s.active, n, current, address, statuses);
      && VanishedFrame(s.active, r.active, n, current, address)
      && (forall t :: t != STATUS_CHANGES ==> EventsOf(r.logs, t) == EventsOf(s.logs, t))
    decreases n
  {
    if n > 0 {
      VanishedChecksFrame(s, n - 1, current, address, statuses);
      var k := s.active.keys[n - 1];
      var prev := VanishedChecks(s, s.active, n - 1, current, address, statuses);
      var r := VanishedChecks(s, s.active, n, current, address, statuses);
      if k !in current && k in prev.active.entries && prev.active.entries[k].address == address {
        assert r == StatusCheck(prev, k, address, Lookup(statuses, k));
      } else {
        assert r == prev;
      }
      VanishedFrameStep(s.active, prev.active, r.active, n, current, address);
    }
  }

  /** What the first `n` checks of vanished orders leave alone: the keys not
      reached yet, the ids never tracked, and the orders of other addresses or
      still listed. */
  ghost predicate VanishedFrame(
    snap: ActiveOrders, a: ActiveOrders, n: nat, current: set<string>, address: string)
    requires n <= |snap.keys|
  {
    && (forall j :: n <= j < |snap.keys| ==> SameEntry(snap, a, snap.keys[j]))
    && (forall k :: k !in snap.entries ==> k !in a.entries)
    && (forall k :: k in snap.entries && (snap.entries[k].address != address || k in current) ==>
          SameEntry(snap, a, k))
  }

  /** One more key of the checks of vanished orders keeps `VanishedFrame`,
      when the step touches only that key and skips it unless it is a tracked
      order of this address missing from the listing. */
  lemma VanishedFrameStep(
    snap: ActiveOrders, prev: ActiveOrders, after: ActiveOrders, n: nat, current: set<string>, address: string)
    requires Valid(snap) && 0 < n <= |snap.keys|
    requires VanishedFrame(snap, prev, n - 1, current, address)
    requires forall x :: x != snap.keys[n - 1] ==> SameEntry(prev, after, x)
    requires var k := snap.keys[n - 1];
      !(k !in current && k in prev.entries && prev.entries[k].address == address) ==> after == prev
    ensures VanishedFrame(snap, after, n, current, address)
  {
    var k := snap.keys[n - 1];
    assert k in snap.entries;
    assert SameEntry(snap, prev, k);
    forall j | n <= j < |snap.keys|
      ensures SameEntry(snap, after, snap.keys[j])
    {
      assert snap.keys[j] != k;
      assert SameEntry(snap, prev, snap.keys[j]) && SameEntry(prev, after, snap.keys[j]);
    }
    forall x | x !in snap.entries
      ensures x !in after.entries
    {
      assert x !in prev.entries && SameEntry(prev, after, x);
    }
    forall x | x in snap.entries && (snap.entries[x].address != address || x in current)
      ensures SameEntry(snap, after, x)
    {
      assert SameEntry(snap, prev, x);
      if x != k {
        assert SameEntry(prev, after, x);
      }
    }
  }

  /** Every tracked order of this address that is missing from the listing,
      among the keys gone through, holds what its status lookup returned:
      evicted on a terminal status, stored otherwise, and untouched when the
      lookup failed. This is how a cancellation is discovered. */
  lemma {:induction false} VanishedChecksEffect(
    s: WatchState, n: nat, current: set<string>, address: string, statuses: map<string, StatusRecord>)
    requires Valid(s.active) && n <= |s.active.keys|
    ensures var r := VanishedChecks(s, s.active, n, current, address, statuses);
      forall i :: 0 <= i < n && s.active.keys[i] !in current && s.active.entries[s.active.keys[i]].address == address ==>
        CheckedAgainst(s.active, r.active, s.active.keys[i], address, statuses)
    decreases n
  {
    if n > 0 {
      VanishedChecksEffect(s, n - 1, current, address, statuses);
      VanishedChecksFrame(s, n - 1, current, address, statuses);
      var k := s.active.keys[n - 1];
      var prev := VanishedChecks(s, s.active, n - 1, current, address, statuses);
      var r := VanishedChecks(s, s.active, n, current, address, statuses);
      assert SameEntry(s.active, prev.active, k);
      if k !in current && k in prev.active.entries && prev.active.entries[k].address == address {
        assert r == StatusCheck(prev, k, address, Lookup(statuses, k));
        StatusCheckAnswers(s.active, prev, k, address, statuses);
      } else {
        assert r == prev;
      }
      VanishedCheckStep(s.active, prev.active, r.active, n, current, address, statuses);
    }
  }

  /** One more key of the checks of vanished orders: the keys answered in
      `prev` stay answered when the step touches only the new key, which is
      answered in `after` when it is due a check. */
  lemma VanishedCheckStep(
    snap: ActiveOrders, prev: ActiveOrders, after: ActiveOrders, n: nat, current: set<string>,
    address: string, statuses: map<string, StatusRecord>)
    requires Valid(snap) && 0 < n <= |snap.keys|
    requires forall i :: 0 <= i < n - 1 && snap.keys[i] !in current && snap.entries[snap.keys[i]].address == address ==>
               CheckedAgainst(snap, prev, snap.keys[i], address, statuses)
    requires forall x :: x != snap.keys[n - 1] ==> SameEntry(prev, after, x)
    requires snap.keys[n - 1] !in current && snap.entries[snap.keys[n - 1]].address == address ==>
               CheckedAgainst(snap, after, snap.keys[n - 1], address, statuses)
    ensures forall i :: 0 <= i < n && snap.keys[i] !in current && snap.entries[snap.keys[i]].address == address ==>
              CheckedAgainst(snap, after, snap.keys[i], address, statuses)
  {
    forall i | 0 <= i < n - 1 && snap.keys[i] !in current && snap.entries[snap.keys[i]].address == address
      ensures CheckedAgainst(snap, after, snap.keys[i], address, statuses)
    {
      assert snap.keys[i] != snap.keys[n - 1];
      CheckedAgainstKept(snap, prev, after, snap.keys[i], address, statuses);
    }
  }

  // ---------------------------------------------------------------------
  // process_fills

  lemma FillsPassAppend(s: WatchState, address: string, fills: seq<Fill>, f: Fill)
    ensures FillsPass(s, address, fills + [f]) == FillStep(FillsPass(s, address, fills), address, f)
  {
    assert (fills + [f])[..|fills|] == fills;
  }

  /** A fill is announced, with "Bought" exactly for side "B", when it is
      well-formed and new; it is then recorded. Otherwise nothing changes. */
  lemma FillStepAlertsIffNew(s: WatchState, address: string, f: Fill)
    ensures var r := FillStep(s, address, f);
      && (|r.alerts| != |s.alerts| <==> ValidFill(f) && IsNewEvent(s.logs, FILLS, f.tid, f.time))
      && (ValidFill(f) && IsNewEvent(s.logs, FILLS, f.tid, f.time) ==>
            && r.alerts == s.alerts + [FillAlert(address, if f.side == "B" then "Bought" else "Sold", f)]
            && !IsNewEvent(r.logs, FILLS, f.tid, f.time))
      && (!ValidFill(f) || !IsNewEvent(s.logs, FILLS, f.tid, f.time) ==> r == s)
  {
    LoggedDeduplicates(s.logs, FILLS, f.tid, f.time);
  }

  function ValidFills(fills: seq<Fill>): (r: seq<Fill>)
    ensures forall f :: f in r ==> f in fills && ValidFill(f)
    decreases |fills|
  {
    if fills == [] then []
    else
      var last := fills[|fills| - 1];
      ValidFills(fills[..|fills| - 1]) + (if ValidFill(last) then [last] else [])
  }

  /** Malformed fills (empty trade id or zero time) have no effect at all. */
  lemma {:induction false} FillsPassSkipsInvalid(s: WatchState, address: string, fills: seq<Fill>)
    ensures FillsPass(s, address, fills) == FillsPass(s, address, ValidFills(fills))
    decreases |fills|
  {
    if fills != [] {
      var n := |fills| - 1;
      var init, last := fills[..n], fills[n];
      FillsPassSkipsInvalid(s, address, init);
      assert FillsPass(s, address, fills) == FillStep(FillsPass(s, address, init), address, last);
      if ValidFill(last) {
        assert ValidFills(fills) == ValidFills(init) + [last];
        FillsPassAppend(s, address, ValidFills(init), last);
      } else {
        assert ValidFills(fills) == ValidFills(init);
      }
    }
  }

  ghost predicate ConsistentFills(fills: seq<Fill>) {
    forall i, j ::
      (0 <= i < |fills| && 0 <= j < |fills| && ValidFill(fills[i]) && ValidFill(fills[j])
       && fills[i].tid == fills[j].tid) ==> fills[i].time == fills[j].time
  }

  ghost predicate FillsKnown(l: Ledger, fills: seq<Fill>) {
    forall i :: 0 <= i < |fills| && ValidFill(fills[i]) ==> !IsNewEvent(l, FILLS, fills[i].tid, fills[i].time)
  }

  lemma {:induction false} FillsPassRecordsAll(s: WatchState, address: string, fills: seq<Fill>)
    requires ConsistentFills(fills)
    ensures FillsKnown(FillsPass(s, address, fills).logs, fills)
    decreases |fills|
  {
    if fills != [] {
      var n := |fills| - 1;
      var init := fills[..n];
      var last := fills[n];
      assert ConsistentFills(init) by {
        forall i, j | 0 <= i < |init| && 0 <= j < |init|
          ensures ValidFill(init[i]) && ValidFill(init[j]) && init[i].tid == init[j].tid ==> init[i].time == init[j].time
        {
          assert init[i] == fills[i] && init[j] == fills[j];
        }
      }
      FillsPassRecordsAll(s, address, init);
      var prev := FillsPass(s, address, init);
      LoggedDeduplicates(prev.logs, FILLS, last.tid, last.time);
      forall i | 0 <= i < |fills| && ValidFill(fills[i])
        ensures !IsNewEvent(FillsPass(s, address, fills).logs, FILLS, fills[i].tid, fills[i].time)
      {
        if i < n {
          assert fills[i] == init[i];
        }
      }
    }
  }

  lemma {:induction false} FillsPassKnownIsNoop(s: WatchState, address: string, fills: seq<Fill>)
    requires FillsKnown(s.logs, fills)
    ensures FillsPass(s, address, fills) == s
    decreases |fills|
  {
    if fills != [] {
      var n := |fills| - 1;
      assert FillsKnown(s.logs, fills[..n]) by {
        forall i | 0 <= i < n && ValidFill(fills[..n][i])
          ensures !IsNewEvent(s.logs, FILLS, fills[..n][i].tid, fills[..n][i].time)
        {
          assert fills[..n][i] == fills[i];
        }
      }
      FillsPassKnownIsNoop(s, address, fills[..n]);
    }
  }

  /** Two back-to-back fill passes over the same fills announce and record
      each fill once. Across whole turns of the watch loop, see
      `AddressPassDedup`. */
  lemma FillsPassIdempotent(s: WatchState, address: string, fills: seq<Fill>)
    requires ConsistentFills(fills)
    ensures FillsPass(FillsPass(s, address, fills), address, fills) == FillsPass(s, address, fills)
  {
    FillsPassRecordsAll(s, address, fills);
    FillsPassKnownIsNoop(FillsPass(s, address, fills), address, fills);
  }

  /** Fills only append fill alerts for this address, each for a well-formed
      fill of the listing with its side label, and write only the fills
      namespace. */
  lemma {:induction false} FillsPassAlerts(s: WatchState, address: string, fills: seq<Fill>)
    ensures var r := FillsPass(s, address, fills);
      && |s.alerts| <= |r.alerts| <= |s.alerts| + |fills|
      && r.alerts[..|s.alerts|] == s.alerts
      && (forall i :: |s.alerts| <= i < |r.alerts| ==>
           && r.alerts[i].FillAlert? && r.alerts[i].address == address
           && r.alerts[i].fill in fills && ValidFill(r.alerts[i].fill)
           && r.alerts[i].side == SideLabel(r.alerts[i].fill))
      && (forall t :: t != FILLS ==> EventsOf(r.logs, t) == EventsOf(s.logs, t))
    decreases |fills|
  {
    if fills != [] {
      var n := |fills| - 1;
      FillsPassAlerts(s, address, fills[..n]);
      var prev := FillsPass(s, address, fills[..n]);
      assert prev.alerts[..|s.alerts|] == s.alerts;
      var r := FillsPass(s, address, fills);
      forall i | |s.alerts| <= i < |r.alerts|
        ensures && r.alerts[i].FillAlert? && r.alerts[i].address == address
           && r.alerts[i].fill in fills && ValidFill(r.alerts[i].fill)
           && r.alerts[i].side == SideLabel(r.alerts[i].fill)
      {
        if i < |prev.alerts| {
          assert r.alerts[i] == prev.alerts[i];
        }
      }
    }
  }

  // ---------------------------------------------------------------------
  // watch: the status checks after process_fills

  /** What a check of `orderId` against `statuses` leaves in the tracker. */
  ghost predicate CheckedAgainst(
    before: ActiveOrders, after: ActiveOrders, orderId: string, address: string,
    statuses: map<string, StatusRecord>)
  {
    if orderId in statuses then
      var status := CurrentStatus(statuses[orderId]);
      && (IsTerminal(status) ==> orderId !in after.entries)
      && (!IsTerminal(status) ==> orderId in after.entries && after.entries[orderId] == Tracked(address, status))
    else SameEntry(before, after, orderId)
  }

  /** A check of an order that `before` and `s` hold alike leaves it as its
      lookup says. */
  lemma StatusCheckAnswers(
    before: ActiveOrders, s: WatchState, orderId: string, address: string,
    statuses: map<string, StatusRecord>)
    requires Valid(s.active) && SameEntry(before, s.active, orderId)
    ensures CheckedAgainst(before, StatusCheck(s, orderId, address, Lookup(statuses, orderId)).active,
                           orderId, address, statuses)
  {
    if orderId in statuses {
      var status := CurrentStatus(statuses[orderId]);
      assert StatusCheck(s, orderId, address, Lookup(statuses, orderId)).active
          == Settle(s.active, orderId, address, status);
    }
  }

  /** A later step that leaves an order alone keeps what an earlier check
      made of it. */
  lemma CheckedAgainstKept(
    before: ActiveOrders, mid: ActiveOrders, after: ActiveOrders, orderId: string, address: string,
    statuses: map<string, StatusRecord>)
    requires CheckedAgainst(before, mid, orderId, address, statuses)
    requires SameEntry(mid, after, orderId)
    ensures CheckedAgainst(before, after, orderId, address, statuses)
  {
  }

  /** The status loop touches only the orders of this address among the
      keys it has gone through, and writes only the status-changes namespace. */
  lemma {:induction false} TrackedChecksFrame(
    s: WatchState, n: nat, address: string, statuses: map<string, StatusRecord>)
    requires Valid(s.active) && n <= |s.active.keys|
    ensures var r := TrackedChecks(s, s.active, n, address, statuses);
      && (forall k :: k !in s.active.entries ==> k !in r.active.entries)
      && (forall k :: k in s.active.entries && s.active.entries[k].address != address ==>
            SameEntry(s.active, r.active, k))
      && (forall t :: t != STATUS_CHANGES ==> EventsOf(r.logs, t) == EventsOf(s.logs, t))
    decreases n
  {
    if n > 0 {
      TrackedChecksFrame(s, n - 1, address, statuses);
      var k := s.active.keys[n - 1];
      var prev := TrackedChecks(s, s.active, n - 1, address, statuses);
      var r := TrackedChecks(s, s.active, n, address, statuses);
      if s.active.entries[k].address == address {
        assert r == StatusCheck(prev, k, address, Lookup(statuses, k));
      } else {
        assert r == prev;
      }
    }
  }

  /** The keys of the snapshot the status loop has not reached yet are as
      the snapshot holds them. */
  lemma {:induction false} TrackedChecksUnreached(
    s: WatchState, n: nat, address: string, statuses: map<string, StatusRecord>)
    requires Valid(s.active) && n <= |s.active.keys|
    ensures var r := TrackedChecks(s, s.active, n, address, statuses);
      forall j :: n <= j < |s.active.keys| ==> SameEntry(s.active, r.active, s.active.keys[j])
    decreases n
  {
    if n > 0 {
      TrackedChecksUnreached(s, n - 1, address, statuses);
      var keys := s.active.keys;
      var prev := TrackedChecks(s, s.active, n - 1, address, statuses);
      var r := TrackedChecks(s, s.active, n, address, statuses);
      forall j | n <= j < |keys|
        ensures SameEntry(s.active, r.active, keys[j])
      {
        assert keys[j] != keys[n - 1];
        assert SameEntry(prev.active, r.active, keys[j]);
      }
    }
  }

  /** One more key of the status loop: if the first `n - 1` keys of `snap`
      were answered in `prev`, and the step from `prev` to `after` answers
      key `n - 1` and touches nothing else, the first `n` keys are answered
      in `after`. */
  lemma TrackedCheckStep(
    snap: ActiveOrders, prev: ActiveOrders, after: ActiveOrders, n: nat, address: string,
    statuses: map<string, StatusRecord>)
    requires Valid(snap) && 0 < n <= |snap.keys|
    requires forall i :: 0 <= i < n - 1 && snap.entries[snap.keys[i]].address == address ==>
               CheckedAgainst(snap, prev, snap.keys[i], address, statuses)
    requires forall x :: x != snap.keys[n - 1] ==> SameEntry(prev, after, x)
    requires snap.entries[snap.keys[n - 1]].address == address ==>
               CheckedAgainst(snap, after, snap.keys[n - 1], address, statuses)
    ensures forall i :: 0 <= i < n && snap.entries[snap.keys[i]].address == address ==>
              CheckedAgainst(snap, after, snap.keys[i], address, statuses)
  {
    DistinctLast(snap.keys, n);
    forall i | 0 <= i < n - 1 && snap.entries[snap.keys[i]].address == address
      ensures CheckedAgainst(snap, after, snap.keys[i], address, statuses)
    {
      assert snap.keys[i] != snap.keys[n - 1];
      CheckedAgainstKept(snap, prev, after, snap.keys[i], address, statuses);
    }
  }

  /** Every order of this address among the keys gone through holds what its
      lookup returned: evicted on a terminal status, stored otherwise, and
      untouched when the lookup failed. */
  lemma {:induction false} TrackedChecksEffect(
    s: WatchState, n: nat, address: string, statuses: map<string, StatusRecord>)
    requires Valid(s.active) && n <= |s.active.keys|
    ensures var r := TrackedChecks(s, s.active, n, address, statuses);
      forall i :: 0 <= i < n && s.active.entries[s.active.keys[i]].address == address ==>
        CheckedAgainst(s.active, r.active, s.active.keys[i], address, statuses)
    decreases n
  {
    if n > 0 {
      TrackedChecksEffect(s, n - 1, address, statuses);
      var k := s.active.keys[n - 1];
      var prev := TrackedChecks(s, s.active, n - 1, address, statuses);
      var r := TrackedChecks(s, s.active, n, address, statuses);
      TrackedChecksUnreached(s, n - 1, address, statuses);
      assert SameEntry(s.active, prev.active, k);
      if s.active.entries[k].address == address {
        assert r == StatusCheck(prev, k, address, Lookup(statuses, k));
        StatusCheckAnswers(s.active, prev, k, address, statuses);
      } else {
        assert r == prev;
      }
      TrackedCheckStep(s.active, prev.active, r.active, n, address, statuses);
    }
  }

  /** After the status loop, the tracker agrees with the exchange for this
      address: no order is tracked that was not tracked before, and every
      order still tracked for the address whose lookup succeeded holds the
      status the lookup returned, which is not terminal. */
  lemma TrackerSyncedAfterChecks(s: WatchState, address: string, statuses: map<string, StatusRecord>)
    requires Valid(s.active)
    ensures var r := TrackedChecks(s, s.active, |s.active.keys|, address, statuses);
      && r.active.entries.Keys <= s.active.entries.Keys
      && forall k :: k in r.active.entries && r.active.entries[k].address == address && k in statuses ==>
           && r.active.entries[k].lastStatus == CurrentStatus(statuses[k])
           && !IsTerminal(CurrentStatus(statuses[k]))
  {
    var n := |s.active.keys|;
    var r := TrackedChecks(s, s.active, n, address, statuses);
    TrackedChecksEffect(s, n, address, statuses);
    TrackedChecksFrame(s, n, address, statuses);
    assert s.active.keys[..n] == s.active.keys;
    forall k | k in r.active.entries && r.active.entries[k].address == address && k in statuses
      ensures r.active.entries[k].lastStatus == CurrentStatus(statuses[k])
      ensures !IsTerminal(CurrentStatus(statuses[k]))
    {
      assert k in s.active.entries;
      assert s.active.entries[k].address == address;
      assert k in s.active.keys;
      var i :| 0 <= i < n && s.active.keys[i] == k;
      assert CheckedAgainst(s.active, r.active, k, address, statuses);
    }
  }

  // ---------------------------------------------------------------------
  // watch: one address

  /** After an address's turn every order tracked for it whose final lookup
      succeeded holds that status, and none of them is terminal. */
  lemma AddressPassSyncsTracker(s: WatchState, address: string, poll: Poll)
    requires Valid(s.active)
    ensures var r := AddressPass(s, address, poll);
      forall k :: k in r.active.entries && r.active.entries[k].address == address && k in poll.trackedStatuses ==>
        && r.active.entries[k].lastStatus == CurrentStatus(poll.trackedStatuses[k])
        && !IsTerminal(r.active.entries[k].lastStatus)
  {
    var afterOrders := OrdersPass(s, address, poll.openOrders, poll.vanishedStatuses);
    var afterFills := FillsPass(afterOrders, address, poll.fills);
    TrackerSyncedAfterChecks(afterFills, address, poll.trackedStatuses);
  }

  /** An address's turn leaves alone every order tracked for another address,
      unless that order's id shows up in this address's listing. */
  lemma AddressPassLeavesOtherAddresses(s: WatchState, address: string, poll: Poll)
    requires Valid(s.active)
    ensures var r := AddressPass(s, address, poll);
      forall k :: (k in s.active.entries && s.active.entries[k].address != address
                   && k !in CurrentOrderIds(poll.openOrders)) ==> SameEntry(s.active, r.active, k)
  {
    var scanned := ScanOrders(s, address, poll.openOrders);
    ScanOrdersFrame(s, address, poll.openOrders);
    var current := CurrentOrderIds(poll.openOrders);
    VanishedChecksFrame(scanned, |scanned.active.keys|, current, address, poll.vanishedStatuses);
    var afterOrders := OrdersPass(s, address, poll.openOrders, poll.vanishedStatuses);
    var afterFills := FillsPass(afterOrders, address, poll.fills);
    TrackedChecksFrame(afterFills, |afterFills.active.keys|, address, poll.trackedStatuses);
  }

  /** `b` extends `a` with status-change alerts only. */
  ghost predicate OnlyStatusAlerts(a: seq<Alert>, b: seq<Alert>) {
    && |a| <= |b|
    && b[..|a|] == a
    && forall i :: |a| <= i < |b| ==> b[i].StatusChangeAlert?
  }

  lemma OnlyStatusAlertsTrans(a: seq<Alert>, b: seq<Alert>, c: seq<Alert>)
    requires OnlyStatusAlerts(a, b) && OnlyStatusAlerts(b, c)
    ensures OnlyStatusAlerts(a, c)
  {
    assert c[..|a|] == c[..|b|][..|a|];
    forall i | |a| <= i < |c|
      ensures c[i].StatusChangeAlert?
    {
      if i < |b| {
        assert c[i] == c[..|b|][i];
      }
    }
  }

  /** A status check appends at most a status-change alert. */
  lemma StatusCheckAlerts(s: WatchState, orderId: string, address: string, lookup: Option<StatusRecord>)
    requires Valid(s.active)
    ensures OnlyStatusAlerts(s.alerts, StatusCheck(s, orderId, address, lookup).alerts)
  {
    var r := StatusCheck(s, orderId, address, lookup);
    assert r.alerts[..|s.alerts|] == s.alerts;
  }

  /** The checks of vanished orders only append status-change alerts. */
  lemma {:induction false} VanishedChecksAlerts(
    s: WatchState, snap: ActiveOrders, n: nat, current: set<string>,
    address: string, statuses: map<string, StatusRecord>)
    requires Valid(s.active) && n <= |snap.keys|
    ensures OnlyStatusAlerts(s.alerts, VanishedChecks(s, snap, n, current, address, statuses).alerts)
    decreases n
  {
    if n == 0 {
      assert s.alerts[..|s.alerts|] == s.alerts;
    } else {
      VanishedChecksAlerts(s, snap, n - 1, current, address, statuses);
      var prev := VanishedChecks(s, snap, n - 1, current, address, statuses);
      var orderId := snap.keys[n - 1];
      StatusCheckAlerts(prev, orderId, address, Lookup(statuses, orderId));
      assert prev.alerts[..|prev.alerts|] == prev.alerts;
      OnlyStatusAlertsTrans(s.alerts, prev.alerts, VanishedChecks(s, snap, n, current, address, statuses).alerts);
    }
  }

  /** The status loop only appends status-change alerts. */
  lemma {:induction false} TrackedChecksAlerts(
    s: WatchState, snap: ActiveOrders, n: nat, address: string, statuses: map<string, StatusRecord>)
    requires Valid(s.active) && Valid(snap) && n <= |snap.keys|
    ensures OnlyStatusAlerts(s.alerts, TrackedChecks(s, snap, n, address, statuses).alerts)
    decreases n
  {
    if n == 0 {
      assert s.alerts[..|s.alerts|] == s.alerts;
    } else {
      TrackedChecksAlerts(s, snap, n - 1, address, statuses);
      var prev := TrackedChecks(s, snap, n - 1, address, statuses);
      var orderId := snap.keys[n - 1];
      StatusCheckAlerts(prev, orderId, address, Lookup(statuses, orderId));
      assert prev.alerts[..|prev.alerts|] == prev.alerts;
      OnlyStatusAlertsTrans(s.alerts, prev.alerts, TrackedChecks(s, snap, n, address, statuses).alerts);
    }
  }

  /** Whether the orders of a listing are recorded depends on the orders
      namespace alone. */
  lemma OrdersKnownTransfer(l: Ledger, m: Ledger, orders: seq<Order>)
    requires OrdersKnown(l, orders) && EventsOf(l, ORDERS) == EventsOf(m, ORDERS)
    ensures OrdersKnown(m, orders)
  {
    forall i | 0 <= i < |orders| && ValidOrder(orders[i])
      ensures !IsNewEvent(m, ORDERS, orders[i].oid, orders[i].timestamp)
    {
      assert !IsNewEvent(l, ORDERS, orders[i].oid, orders[i].timestamp);
    }
  }

  /** Whether the fills of a listing are recorded depends on the fills
      namespace alone. */
  lemma FillsKnownTransfer(l: Ledger, m: Ledger, fills: seq<Fill>)
    requires FillsKnown(l, fills) && EventsOf(l, FILLS) == EventsOf(m, FILLS)
    ensures FillsKnown(m, fills)
  {
    forall i | 0 <= i < |fills| && ValidFill(fills[i])
      ensures !IsNewEvent(m, FILLS, fills[i].tid, fills[i].time)
    {
      assert !IsNewEvent(l, FILLS, fills[i].tid, fills[i].time);
    }
  }

  /** After an address's turn, the listing's orders and fills are all
      recorded. */
  lemma AddressPassRecordsAll(s: WatchState, address: string, poll: Poll)
    requires Valid(s.active) && ConsistentOrders(poll.openOrders) && ConsistentFills(poll.fills)
    ensures var r := AddressPass(s, address, poll);
      OrdersKnown(r.logs, poll.openOrders) && FillsKnown(r.logs, poll.fills)
  {
    var scanned := ScanOrders(s, address, poll.openOrders);
    ScanOrdersRecordsAll(s, address, poll.openOrders);
    VanishedChecksFrame(scanned, |scanned.active.keys|, CurrentOrderIds(poll.openOrders), address, poll.vanishedStatuses);
    var afterOrders := OrdersPass(s, address, poll.openOrders, poll.vanishedStatuses);
    OrdersKnownTransfer(scanned.logs, afterOrders.logs, poll.openOrders);
    FillsPassRecordsAll(afterOrders, address, poll.fills);
    FillsPassAlerts(afterOrders, address, poll.fills);
    var afterFills := FillsPass(afterOrders, address, poll.fills);
    OrdersKnownTransfer(afterOrders.logs, afterFills.logs, poll.openOrders);
    TrackedChecksFrame(afterFills, |afterFills.active.keys|, address, poll.trackedStatuses);
    var r := AddressPass(s, address, poll);
    OrdersKnownTransfer(afterFills.logs, r.logs, poll.openOrders);
    FillsKnownTransfer(afterFills.logs, r.logs, poll.fills);
  }

  /** Dedup across a turn for an address that immediately follows its previous
      turn (two consecutive cycles when one address is configured): when the
      exchange returns the same orders and fills (no id with two timestamps),
      that turn records no new order or fill and announces nothing but status
      changes. */
  lemma AddressPassDedup(s: WatchState, address: string, poll: Poll, next: Poll)
    requires Valid(s.active) && ConsistentOrders(poll.openOrders) && ConsistentFills(poll.fills)
    requires next.openOrders == poll.openOrders && next.fills == poll.fills
    ensures var r1 := AddressPass(s, address, poll);
      var r2 := AddressPass(r1, address, next);
      && EventsOf(r2.logs, ORDERS) == EventsOf(r1.logs, ORDERS)
      && EventsOf(r2.logs, FILLS) == EventsOf(r1.logs, FILLS)
      && OnlyStatusAlerts(r1.alerts, r2.alerts)
  {
    var r1 := AddressPass(s, address, poll);
    AddressPassRecordsAll(s, address, poll);
    ScanKnownOrdersIsNoop(r1, address, next.openOrders);
    var current := CurrentOrderIds(next.openOrders);
    VanishedChecksFrame(r1, |r1.active.keys|, current, address, next.vanishedStatuses);
    VanishedChecksAlerts(r1, r1.active, |r1.active.keys|, current, address, next.vanishedStatuses);
    var afterOrders := OrdersPass(r1, address, next.openOrders, next.vanishedStatuses);
    FillsKnownTransfer(r1.logs, afterOrders.logs, next.fills);
    FillsPassKnownIsNoop(afterOrders, address, next.fills);
    TrackedChecksFrame(afterOrders, |afterOrders.active.keys|, address, next.trackedStatuses);
    TrackedChecksAlerts(afterOrders, afterOrders.active, |afterOrders.active.keys|, address, next.trackedStatuses);
    OnlyStatusAlertsTrans(r1.alerts, afterOrders.alerts, AddressPass(r1, address, next).alerts);
  }

  // ---------------------------------------------------------------------
  // Restart

  /** The tracker is not rebuilt after a restart: with a fresh tracker and a
      ledger that already holds every order of the listing, `process_orders`
      neither alerts nor tracks any of them. */
  lemma RestartForgetsOpenOrders(
    file: StoredFile, address: string, orders: seq<Order>, statuses: map<string, StatusRecord>)
    requires OrdersKnown(LoadLogs(file), orders)
    ensures var r := OrdersPass(WatchState(LoadLogs(file), NoOrders(), []), address, orders, statuses);
      r.active.entries == map[] && r.alerts == []
  {
    var s := WatchState(LoadLogs(file), NoOrders(), []);
    ScanKnownOrdersIsNoop(s, address, orders);
  }
}
