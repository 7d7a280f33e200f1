# Hyperliquid order watcher: deduplication and order-lifecycle engine

This project models the core of `HyperliquidWatcher`. The watcher polls an
exchange, once per configured wallet address, for three things: open orders,
trade fills, and the status of every tracked order of the address, and again
of those that left the open-orders listing. It
sends one alert per new event. A persisted ledger keeps it from alerting twice
on the same event.

- **Ledger** (`EventLedger`): three namespaces, `orders`, `fills` and
  `status_changes`. Each maps an event id to the timestamp recorded for it.
  An event is new unless its id is recorded with exactly the same timestamp,
  so an order whose timestamp changes is announced again. `LoadLogs` builds
  the ledger from what the state file held. Every write replaces the file.
- **Active-order tracker** (`ActiveOrderTracker`): order id → (address, last
  status). Python dictionaries iterate in insertion order, and the status
  checks follow that order. The model therefore keeps the keys in a sequence
  beside the map. Reassigning a key keeps its place; popping a key removes it.
- **Operations** (`WatchCycle`): each operation is a function of the state
  (ledger, tracker, alerts sent). A loop of the source becomes a function of
  the prefix of its input consumed so far.
- **The watcher** (`Watcher.HyperliquidWatcher`): a class whose fields are
  updated in place. Its methods run the source's loops. Each method is proved
  to leave exactly the state the matching `WatchCycle` function gives. The
  class invariant also says two more things. No tracked order is in a
  terminal status. Reloading the state file would give back exactly the
  in-memory ledger.
- **Properties** (`WatchProperties`): lemmas about those functions.

Exchange responses are inputs. A `Poll` holds, for one address, the open
orders, the fills and two status maps: one for the lookups inside
`process_orders` and one for the status loop of `watch`. An id missing from a
status map stands for a lookup that failed or returned nothing. Alerts are
structured values collected in a sequence, not formatted text. In an order or
a fill, a missing id is the empty string. A missing, null or zero timestamp
is 0.

Two consequences of the code are worth stating up front:
- After a restart the tracker starts empty. An order already in the
  persisted ledger is not tracked again until its timestamp changes
  (`WatchProperties.RestartForgetsOpenOrders`).
- `filled` does not evict an order: it stays tracked with last status
  `filled` and is checked again on every cycle
  (`WatchProperties.FilledStaysTracked`).

## Model

| member | source | states |
|---|---|---|
| `EventLedger.IsNewEventIff` | src/monitor.py:80-84 | `IsNewEvent` (`is_new_event`) is false exactly when its namespace exists, holds its id, and the recorded timestamp equals the given one |
| `EventLedger.Logged` | src/monitor.py:89-94 | recording creates a missing namespace, sets the id to the timestamp, and leaves every other id and namespace as it was |
| `EventLedger.LoggedDeduplicates` | src/monitor.py:80-94 | after recording, the same (id, timestamp) is no longer new, the same id with another timestamp is still new, and every other (namespace, id) is judged as before |
| `EventLedger.LoadLogs` | src/monitor.py:30-50 | the loaded ledger always has the three namespaces; a missing file, a read or parse error, or a non-object value gives three empty namespaces; an object keeps its namespaces and gets the missing ones empty |
| `EventLedger.LoggedKeepsNamespaces` | src/monitor.py:89-94 | recording never removes one of the three namespaces |
| `EventLedger.LoadSavedLedger` | src/monitor.py:30-58 | a saved ledger that has its three namespaces loads back unchanged |
| `EventLedger.EmptyLedgerAllNew` | src/monitor.py:37-50 | after a reset every event is new |
| `Records.SideLabel` | src/monitor.py:181 | a fill is labelled "Bought" exactly when its side is "B", otherwise "Sold" |
| `ActiveOrderTracker.Put` | src/monitor.py:120 | assigning an entry keeps the keys distinct and in insertion order: an existing key keeps its place, a new key goes last |
| `ActiveOrderTracker.Pop` | src/monitor.py:162 | popping removes the entry and its key, keeps the order of the others, and is a no-op for an absent key |
| `ActiveOrderTracker.PutTwice` | src/monitor.py:164 | assigning the same entry twice equals assigning it once |
| `WatchCycle.OrderStep` | src/monitor.py:105-120 | one order of the listing keeps the tracker well-formed and free of terminal statuses |
| `WatchCycle.ScanOrders` | src/monitor.py:104-120 | the scan of the listing keeps the tracker well-formed and free of terminal statuses |
| `WatchCycle.CurrentOrderIds` | src/monitor.py:102-112 | `current_order_ids` holds exactly the ids of the orders that were not skipped |
| `WatchCycle.StatusCheck` | src/monitor.py:130-164 | a status check changes no tracked order other than the one checked, and writes no ledger namespace other than status changes |
| `WatchCycle.Settle` | src/monitor.py:160-164 | a terminal status evicts the order, any other status is stored for the address; no other tracked order changes, and the tracker stays well-formed with no terminal status in it |
| `WatchCycle.VanishedChecks` | src/monitor.py:122-125 | the checks of vanished orders keep the tracker well-formed and free of terminal statuses |
| `WatchCycle.OrdersPass` | src/monitor.py:99-128 | `process_orders` keeps the tracker well-formed and free of terminal statuses |
| `WatchCycle.FillStep` | src/monitor.py:173-188 | one fill never touches the tracker |
| `WatchCycle.FillsPass` | src/monitor.py:169-190 | `process_fills` never touches the tracker |
| `WatchCycle.TrackedChecks` | src/monitor.py:207-210 | the status loop keeps the tracker well-formed and free of terminal statuses |
| `WatchCycle.AddressPass` | src/monitor.py:198-210 | one address's turn keeps the tracker well-formed and free of terminal statuses |
| `WatchCycle.CyclePass` | src/monitor.py:198-210 | one pass over all addresses keeps the tracker well-formed and free of terminal statuses |
| `WatchProperties.OrderStepAlertsIffNew` | src/monitor.py:108-120 | an order is announced exactly when it is well-formed and new; it is then recorded and tracked as (address, "open"); otherwise nothing changes |
| `WatchProperties.DuplicateOrderIgnored` | src/monitor.py:114-120 | a copy of an order that immediately follows the first one changes nothing |
| `WatchProperties.ChangedTimestampRealerts` | src/monitor.py:84 | an order id recorded with another timestamp is announced again |
| `WatchProperties.ScanOrdersSkipsInvalid` | src/monitor.py:105-110 | orders with an empty id or a zero timestamp have no effect: the scan equals the scan of the well-formed orders alone |
| `WatchProperties.ScanOrdersRecordsAll` | src/monitor.py:114-118 | after a scan of a listing without conflicting timestamps, every well-formed order is recorded |
| `WatchProperties.ScanKnownOrdersIsNoop` | src/monitor.py:114 | a scan of orders that are all recorded changes nothing: no alert, no write, no tracking |
| `WatchProperties.ScanOrdersIdempotent` | src/monitor.py:104-120 | two back-to-back scans of a listing without conflicting timestamps announce and record each order once |
| `WatchProperties.ScanOrdersAlerts` | src/monitor.py:114-117 | a scan only appends alerts, at most as many as the listing has orders, each for a well-formed order of the listing and this address |
| `WatchProperties.ScanOrdersFrame` | src/monitor.py:104-120 | ids outside `current_order_ids`, skipped orders included, are left alone in the tracker and the ledger, and only the orders namespace is written |
| `WatchProperties.NoStatusNoChange` | src/monitor.py:139-140 | an empty or failed lookup leaves the ledger, the tracker and the alerts unchanged |
| `WatchProperties.StatusCheckDecides` | src/monitor.py:142-164 | a status change is announced and recorded under `order_id + "_" + status` exactly when the status differs from the last one ("unknown" if untracked), is not "open" or "filled", and the key is new with the status timestamp; a terminal status evicts the order; any other status becomes its last status for the address |
| `WatchProperties.FilledStaysTracked` | src/monitor.py:146-164 | "filled" neither alerts nor evicts; the order stays tracked with last status "filled" |
| `WatchProperties.StatusCheckIdempotent` | src/monitor.py:130-164 | checking an order twice with the same answer equals checking it once |
| `WatchProperties.VanishedChecksFrame` | src/monitor.py:122-125 | only tracked orders of this address missing from the listing are checked, each when the loop reaches it; no order is added; only the status-changes namespace is written |
| `WatchProperties.VanishedChecksEffect` | src/monitor.py:122-125 | every tracked order of this address whose id is missing from the listing gets its status check: evicted on a terminal status, stored with the returned status otherwise, untouched when the lookup failed |
| `WatchProperties.FillStepAlertsIffNew` | src/monitor.py:176-188 | a fill is announced with its side label exactly when it is well-formed and new; it is then recorded; otherwise nothing changes |
| `WatchProperties.FillsPassSkipsInvalid` | src/monitor.py:173-178 | fills with an empty trade id or a zero time have no effect |
| `WatchProperties.FillsPassRecordsAll` | src/monitor.py:180-188 | after a pass over fills without conflicting times, every well-formed fill is recorded |
| `WatchProperties.FillsPassKnownIsNoop` | src/monitor.py:180 | a pass over fills that are all recorded changes nothing |
| `WatchProperties.FillsPassIdempotent` | src/monitor.py:172-188 | two back-to-back fill passes over fills without conflicting times announce and record each fill once |
| `WatchProperties.FillsPassAlerts` | src/monitor.py:180-188 | fills only append fill alerts for this address, each for a well-formed fill of the listing with its side label, and only the fills namespace is written |
| `WatchProperties.TrackedChecksEffect` | src/monitor.py:207-210 | the status loop checks every order tracked for this address: a terminal answer evicts it, another answer becomes its status, a failed lookup leaves it |
| `WatchProperties.TrackedChecksFrame` | src/monitor.py:207-210 | the status loop adds no order, leaves alone every order of another address, and writes only the status-changes namespace |
| `WatchProperties.TrackedChecksUnreached` | src/monitor.py:207-210 | the keys of the snapshot the status loop has not reached yet are tracked exactly as the snapshot holds them |
| `WatchProperties.TrackerSyncedAfterChecks` | src/monitor.py:207-210 | after the status loop no order is newly tracked, and every order of this address with a successful lookup holds the returned status, which is not terminal |
| `WatchProperties.AddressPassSyncsTracker` | src/monitor.py:198-210 | after an address's turn, every order tracked for it with a successful final lookup holds that status, which is not terminal |
| `WatchProperties.AddressPassLeavesOtherAddresses` | src/monitor.py:198-210 | an address's turn leaves every order of another address alone, unless its id is in this address's listing |
| `WatchProperties.AddressPassRecordsAll` | src/monitor.py:198-210 | after an address's turn, every well-formed order and fill of a listing without conflicting timestamps is recorded |
| `WatchProperties.AddressPassDedup` | src/monitor.py:198-210 | when a turn for an address that immediately follows its previous turn (two consecutive cycles when one address is configured) sees the same orders and fills (no id with two timestamps), it leaves the orders and fills namespaces as they were and announces nothing but status changes |
| `WatchProperties.VanishedChecksAlerts` | src/monitor.py:122-125 | the checks of vanished orders only append status-change alerts |
| `WatchProperties.TrackedChecksAlerts` | src/monitor.py:207-210 | the status loop only appends status-change alerts |
| `WatchProperties.StatusCheckAlerts` | src/monitor.py:142-158 | a status check only appends status-change alerts |
| `WatchProperties.RestartForgetsOpenOrders` | src/monitor.py:25-28 | with a fresh tracker and a ledger that already holds the listing, `process_orders` neither alerts nor tracks any order |
| `Watcher.HyperliquidWatcher.constructor` | src/monitor.py:12-28 | the ledger is loaded from the state file, the tracker and the alert log start empty, and the class invariant holds |
| `Watcher.HyperliquidWatcher.SaveLogs` | src/monitor.py:52-58 | the file is overwritten with the ledger, which it then reloads to |
| `Watcher.HyperliquidWatcher.LogEvent` | src/monitor.py:89-97 | the ledger becomes `Logged` of the old one and is written through; nothing else changes |
| `Watcher.HyperliquidWatcher.CheckOrderStatus` | src/monitor.py:130-167 | the new state is `StatusCheck` of the old one; the state file is left as it was or holds the current ledger |
| `Watcher.HyperliquidWatcher.ScanOpenOrders` | src/monitor.py:102-120 | the new state is `ScanOrders` of the old one, and the returned set is `CurrentOrderIds`; the state file is left as it was or holds the current ledger |
| `Watcher.HyperliquidWatcher.CheckVanishedOrders` | src/monitor.py:122-125 | the new state is `VanishedChecks` over the tracker's snapshot; every snapshot key is still tracked, unchanged, when its turn comes, so the address lookup cannot fail; the state file is left as it was or holds the current ledger |
| `Watcher.HyperliquidWatcher.ProcessOrders` | src/monitor.py:99-128 | the new state is `OrdersPass` of the old one; the state file is left as it was or holds the current ledger |
| `Watcher.HyperliquidWatcher.ProcessFills` | src/monitor.py:169-190 | the new state is `FillsPass` of the old one; the state file is left as it was or holds the current ledger |
| `Watcher.HyperliquidWatcher.WatchAddress` | src/monitor.py:198-210 | the new state is `AddressPass` of the old one; the state file is left as it was or holds the current ledger |
| `Watcher.HyperliquidWatcher.WatchPass` | src/monitor.py:196-215 | the new state is `CyclePass` over the configured addresses, in order; the state file is left as it was or holds the current ledger |

## Left out

- The HTTP client (`src/client.py`): its results are inputs (`Poll`). Its soft failures appear as an empty listing or a missing status entry.
- The alert handler (`src/alerts/`): an alert is appended to `alerts`. The message text is not modelled. `format_order` and the fill volume use float arithmetic and date formatting.
- JSON reading and writing: the state file is an abstract `StoredFile`. A parse error and any other read error are the single case `Unreadable`. The ledger is well-typed (string → string → int). That makes the fail-open `except` branch of `is_new_event` unreachable.
- Watcher.HyperliquidWatcher.SaveLogs: a failed write is not modelled; here every write succeeds. In the source the file is opened with mode "w", which empties it before `json.dump` runs. A failure of `open()` leaves the file as it was. A failure during the dump leaves it empty or partly written, and the next start then loads three empty namespaces, so every event is announced again.
- Python truthiness and `str()` conversions: an id is a string, and a falsy timestamp is 0. A null `oid` or `tid` becomes the truthy string "None" in the source, so that entry is not skipped. The model holds that string as the id and treats it the same way: the entry is recorded under "None". The status client always returns `status`, `statusTimestamp` and `coin`, so a missing value arrives as null, not as an absent key. The model reads such a null as absent. A null `status` reads as "unknown" instead of Python's "None". A null `statusTimestamp` reads as 0; the source records JSON null. A null `coin` reads as "UNKNOWN"; the source shows None.
- The `while True` loop, `asyncio.sleep`, the logging calls, and the catch-all `except` blocks are not modelled. No exception can arise in the model: the address lookup in `process_orders` is proved to succeed.
- WatchProperties.AddressPassDedup: dedup across whole cycles with several configured addresses is not proved. The lemma covers only a turn that immediately follows the same address's previous turn. When another address's listing in between carries one of these ids with a different timestamp, that turn overwrites the record, and the order is announced again on the next cycle.
- WatchCycle.FillStep: the fill volume `float(sz) * float(px)` (src/monitor.py:182) is not modelled. In the source it raises when `sz` or `px` is null or not numeric. The `except` at src/monitor.py:189 then ends `process_fills`: that fill is neither announced nor recorded, and every later fill of the listing is skipped, on every cycle. Here every well-formed new fill is announced.
- `test_order_status`, `src/main.py`, `config/config.py` and `src/utils/logging.py`: set-up and CLI glue.
- Aggregation buckets, the flush timer, `min_trade_value` and `aggregation_window`: the code has no aggregator, and the two settings are stored but never read.
