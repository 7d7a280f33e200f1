/** The active-order tracker: a dictionary from order id to the owning address
    and the last status seen. Python dictionaries iterate in insertion order
    (reassigning a key keeps its place, popping removes it), and the watcher's
    status checks follow that order, so the model keeps the keys in a sequence
    beside the map. */
module ActiveOrderTracker {
  import opened Records

  datatype Tracked = Tracked(address: string, lastStatus: string)

  datatype ActiveOrders = ActiveOrders(entries: map<string, Tracked>, keys: seq<string>)

  ghost predicate Distinct(s: seq<string>) {
    forall i, j :: 0 <= i < j < |s| ==> s[i] != s[j]
  }

  /** `keys` lists every tracked id exactly once. */
  ghost predicate Valid(a: ActiveOrders) {
    && Distinct(a.keys)
    && (forall i :: 0 <= i < |a.keys| ==> a.keys[i] in a.entries)
    && (forall k {:trigger k in a.keys} :: k in a.entries ==> k in a.keys)
  }

  /** No tracked order sits in a terminal status: those are evicted. */
  ghost predicate Live(a: ActiveOrders) {
    forall k :: k in a.entries ==> !IsTerminal(a.entries[k].lastStatus)
  }

  /** Order `k` is tracked in `a` exactly when it is in `b`, with the same entry. */
  ghost predicate SameEntry(a: ActiveOrders, b: ActiveOrders, k: string) {
    && (k in a.entries <==> k in b.entries)
    && (k in a.entries ==> a.entries[k] == b.entries[k])
  }

  function NoOrders(): (a: ActiveOrders)
    ensures Valid(a) && Live(a) && a.entries == map[]
  {
    ActiveOrders(map[], [])
  }

  /** `active_orders.get(order_id, {}).get("last_status", "unknown")` */
  function LastStatus(a: ActiveOrders, orderId: string): string {
    if orderId in a.entries then a.entries[orderId].lastStatus else UNKNOWN
  }

  /** `active_orders[order_id] = t` */
  function Put(a: ActiveOrders, orderId: string, t: Tracked): (r: ActiveOrders)
    requires Valid(a)
    ensures Valid(r)
    ensures r.entries == a.entries[orderId := t]
    ensures orderId in a.entries ==> r.keys == a.keys
    ensures orderId !in a.entries ==> r.keys == a.keys + [orderId]
  {
    if orderId in a.entries then ActiveOrders(a.entries[orderId := t], a.keys)
    else ActiveOrders(a.entries[orderId := t], a.keys + [orderId])
  }

  /** The sequence with every occurrence of `k` removed, order kept. */
  function Without(s: seq<string>, k: string): (r: seq<string>)
    ensures forall x :: x in r <==> x in s && x != k
    ensures |r| <= |s|
  {
    if s == [] then []
    else (if s[0] == k then [] else [s[0]]) + Without(s[1..], k)
  }

  lemma {:induction false} WithoutDistinct(s: seq<string>, k: string)
    requires Distinct(s)
    ensures Distinct(Without(s, k))
  {
    if s != [] {
      WithoutDistinct(s[1..], k);
      var rest := Without(s[1..], k);
      assert s[0] !in s[1..] by {
        forall i | 0 <= i < |s[1..]| ensures s[1..][i] != s[0] {
          assert s[1..][i] == s[i + 1];
        }
      }
      assert s[0] !in rest;
    }
  }

  lemma {:induction false} WithoutAbsent(s: seq<string>, k: string)
    ensures k !in s ==> Without(s, k) == s
  {
    if s != [] && k !in s {
      WithoutAbsent(s[1..], k);
      assert s == [s[0]] + s[1..];
    }
  }

  /** What is left of the keys after removing one is still tracked. */
  lemma WithoutTracked(a: ActiveOrders, k: string)
    requires Valid(a)
    ensures forall i :: 0 <= i < |Without(a.keys, k)| ==> Without(a.keys, k)[i] in a.entries
  {
    var r := Without(a.keys, k);
    forall i | 0 <= i < |r|
      ensures r[i] in a.entries
    {
      assert r[i] in r;
      var j :| 0 <= j < |a.keys| && a.keys[j] == r[i];
    }
  }

  /** `active_orders.pop(order_id, None)` */
  function Pop(a: ActiveOrders, orderId: string): (r: ActiveOrders)
    requires Valid(a)
    ensures Valid(r)
    ensures r.entries == a.entries - {orderId}
    ensures r.keys == Without(a.keys, orderId)
    ensures orderId !in a.entries ==> r == a
  {
    WithoutDistinct(a.keys, orderId);
    WithoutAbsent(a.keys, orderId);
    WithoutTracked(a, orderId);
    ActiveOrders(a.entries - {orderId}, Without(a.keys, orderId))
  }

  /** The `n`-th key does not occur among the keys before it. */
  lemma DistinctLast(s: seq<string>, n: nat)
    requires Distinct(s) && 0 < n <= |s|
    ensures s[..n] == s[..n - 1] + [s[n - 1]]
    ensures s[n - 1] !in s[..n - 1]
  {
    assert s[..n] == s[..n - 1] + [s[n - 1]];
    assert forall i :: 0 <= i < n - 1 ==> s[..n - 1][i] == s[i];
  }

  /** Storing the same entry twice is the same as storing it once. */
  lemma PutTwice(a: ActiveOrders, orderId: string, t: Tracked)
    requires Valid(a)
    ensures Put(Put(a, orderId, t), orderId, t) == Put(a, orderId, t)
  {
  }
}
