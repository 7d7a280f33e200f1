/** The records the watcher reads from the exchange and the alerts it emits.
    The exchange delivers untyped dictionaries; here each one is a typed value
    in which a missing field is given the default the watcher reads with
    `.get(...)`: an empty string for a missing id and 0 for a missing or null
    timestamp. */
module Records {

  datatype Option<+T> = None | Some(value: T)

  /** An entry of the open-orders listing. Only `oid` and `timestamp` drive the
      watcher; the other fields are carried into the alert for display. */
  datatype Order = Order(
    oid: string,
    timestamp: int,
    coin: string,
    side: string,
    sz: string,
    limitPx: string,
    orderType: string)

  /** An entry of the fills listing. */
  datatype Fill = Fill(
    tid: string,
    time: int,
    coin: string,
    side: string,
    sz: string,
    px: string)

  /** A successful order-status lookup. `None` in a field is a value the
      response lacks, which the model reads with the watcher's default. */
  datatype StatusRecord = StatusRecord(
    status: Option<string>,
    statusTimestamp: Option<int>,
    coin: Option<string>)

  /** What the console alert handler is asked to log. */
  datatype Alert =
    | OpenOrderAlert(address: string, order: Order)
    | StatusChangeAlert(address: string, orderId: string, status: string, coin: string)
    | FillAlert(address: string, side: string, fill: Fill)

  const OPEN := "open"
  const FILLED := "filled"
  const UNKNOWN := "unknown"

  /** An order is processed only when both its id and its timestamp are truthy. */
  predicate ValidOrder(o: Order) {
    o.oid != "" && o.timestamp != 0
  }

  /** A fill is processed only when both its trade id and its time are truthy. */
  predicate ValidFill(f: Fill) {
    f.tid != "" && f.time != 0
  }

  /** The verb of a fill alert: the exchange marks a buy with side "B". */
  function SideLabel(f: Fill): (verb: string)
    ensures verb == "Bought" <==> f.side == "B"
    ensures verb == "Sold" <==> f.side != "B"
  {
    if f.side == "B" then "Bought" else "Sold"
  }

  /** The statuses after which an order is no longer tracked. */
  predicate IsTerminal(status: string) {
    status == "canceled" || status == "rejected" || status == "marginCanceled"
  }

  function CurrentStatus(r: StatusRecord): string {
    match r.status
    case Some(s) => s
    case None => UNKNOWN
  }

  function StatusTimestamp(r: StatusRecord): int {
    match r.statusTimestamp
    case Some(t) => t
    case None => 0
  }

  function StatusCoin(r: StatusRecord): string {
    match r.coin
    case Some(c) => c
    case None => "UNKNOWN"
  }

  /** The ledger key of a status change: the order id and the status joined by "_". */
  function StatusKey(orderId: string, status: string): string {
    orderId + "_" + status
  }
}
