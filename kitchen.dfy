/**
 * The kitchen display (app/kitchen/page.tsx): a collection of orders whose
 * items move from pending through preparing to ready, split into active and
 * completed orders, with a countdown of each order's estimated time.
 *
 * The three updaters the page passes to `setOrders` are pure functions here
 * (`ItemStatusUpdated`, `OrderMarkedComplete`, `CountdownTicked`); the state
 * cell itself is the field of class `KitchenDisplay`.
 */
module Kitchen {
  import opened Seqs
  import opened Wrappers

  datatype ItemStatus = Pending | Preparing | Ready

  datatype Priority = Normal | High | Urgent

  datatype KitchenItem = KitchenItem(
    id: string,
    name: string,
    quantity: int,
    specialInstructions: Option<string>,
    status: ItemStatus)

  datatype KitchenOrder = KitchenOrder(
    id: string,
    orderNumber: string,
    tableNumber: int,
    customerName: string,
    items: seq<KitchenItem>,
    orderTime: string,
    estimatedTime: int,  // minutes
    priority: Priority,
    totalItems: int)

  /** The position of a status along pending, preparing, ready. */
  function Rank(s: ItemStatus): nat {
    match s
    case Pending => 0
    case Preparing => 1
    case Ready => 2
  }

  // ---------------------------------------------------------------------------
  // updateItemStatus

  /** The inner `items.map`: every item with id `itemId` gets status `newStatus`. */
  function ItemsWithStatus(items: seq<KitchenItem>, itemId: string, newStatus: ItemStatus): (r: seq<KitchenItem>)
    ensures |r| == |items|
  {
    if items == [] then []
    else
      [if items[0].id == itemId then items[0].(status := newStatus) else items[0]]
      + ItemsWithStatus(items[1..], itemId, newStatus)
  }

  /** The updater of `updateItemStatus(orderId, itemId, newStatus)`. */
  function ItemStatusUpdated(orders: seq<KitchenOrder>, orderId: string, itemId: string, newStatus: ItemStatus)
    : (r: seq<KitchenOrder>)
    ensures |r| == |orders|
    ensures forall k :: 0 <= k < |r| ==> r[k].id == orders[k].id && |r[k].items| == |orders[k].items|
  {
    if orders == [] then []
    else
      var o := orders[0];
      [if o.id == orderId then o.(items := ItemsWithStatus(o.items, itemId, newStatus)) else o]
      + ItemStatusUpdated(orders[1..], orderId, itemId, newStatus)
  }

  lemma {:induction false} ItemsWithStatusAt(items: seq<KitchenItem>, itemId: string, newStatus: ItemStatus, j: int)
    requires 0 <= j < |items|
    ensures ItemsWithStatus(items, itemId, newStatus)[j]
         == if items[j].id == itemId then items[j].(status := newStatus) else items[j]
  {
    if j > 0 {
      ItemsWithStatusAt(items[1..], itemId, newStatus, j - 1);
    }
  }

  lemma {:induction false} ItemStatusUpdatedAt(orders: seq<KitchenOrder>, orderId: string, itemId: string, newStatus: ItemStatus, k: int)
    requires 0 <= k < |orders|
    ensures ItemStatusUpdated(orders, orderId, itemId, newStatus)[k]
         == if orders[k].id == orderId
            then orders[k].(items := ItemsWithStatus(orders[k].items, itemId, newStatus))
            else orders[k]
  {
    if k > 0 {
      ItemStatusUpdatedAt(orders[1..], orderId, itemId, newStatus, k - 1);
    }
  }

  /**
   * `updateItemStatus` changes only the status of the items whose id is
   * `itemId` inside the orders whose id is `orderId`: the number and order of
   * orders and of their items, every other field of every order, and every
   * other item stay as they were.
   */
  lemma UpdateItemStatusEffect(orders: seq<KitchenOrder>, orderId: string, itemId: string, newStatus: ItemStatus, k: int, j: int)
    requires 0 <= k < |orders| && 0 <= j < |orders[k].items|
    ensures var r := ItemStatusUpdated(orders, orderId, itemId, newStatus);
      && |r| == |orders|
      && |r[k].items| == |orders[k].items|
      && r[k].(items := orders[k].items) == orders[k]
      && r[k].items[j]
         == if orders[k].id == orderId && orders[k].items[j].id == itemId
            then orders[k].items[j].(status := newStatus)
            else orders[k].items[j]
  {
    ItemStatusUpdatedAt(orders, orderId, itemId, newStatus, k);
    ItemsWithStatusAt(orders[k].items, itemId, newStatus, j);
  }

  /** An order id or item id that matches nothing leaves the collection unchanged. */
  lemma UpdateUnknownIsNoop(orders: seq<KitchenOrder>, orderId: string, itemId: string, newStatus: ItemStatus)
    requires forall o, it :: o in orders && it in o.items ==> o.id != orderId || it.id != itemId
    ensures ItemStatusUpdated(orders, orderId, itemId, newStatus) == orders
  {
    var r := ItemStatusUpdated(orders, orderId, itemId, newStatus);
    forall k | 0 <= k < |orders| ensures r[k] == orders[k] {
      ItemStatusUpdatedAt(orders, orderId, itemId, newStatus, k);
      if orders[k].id == orderId {
        var items := orders[k].items;
        var u := ItemsWithStatus(items, itemId, newStatus);
        forall j | 0 <= j < |items| ensures u[j] == items[j] {
          ItemsWithStatusAt(items, itemId, newStatus, j);
          assert items[j] in orders[k].items;
        }
        assert u == items;
      }
    }
  }

  // ---------------------------------------------------------------------------
  // markOrderComplete

  /** The inner `items.map` of `markOrderComplete`: every item becomes ready. */
  function ItemsAllReady(items: seq<KitchenItem>): (r: seq<KitchenItem>)
    ensures |r| == |items|
  {
    if items == [] then [] else [items[0].(status := Ready)] + ItemsAllReady(items[1..])
  }

  /** The updater of `markOrderComplete(orderId)`. */
  function OrderMarkedComplete(orders: seq<KitchenOrder>, orderId: string): (r: seq<KitchenOrder>)
    ensures |r| == |orders|
    ensures forall k :: 0 <= k < |r| ==> r[k].id == orders[k].id && |r[k].items| == |orders[k].items|
  {
    if orders == [] then []
    else
      var o := orders[0];
      [if o.id == orderId then o.(items := ItemsAllReady(o.items)) else o]
      + OrderMarkedComplete(orders[1..], orderId)
  }

  lemma {:induction false} ItemsAllReadyAt(items: seq<KitchenItem>, j: int)
    requires 0 <= j < |items|
    ensures ItemsAllReady(items)[j] == items[j].(status := Ready)
  {
    if j > 0 {
      ItemsAllReadyAt(items[1..], j - 1);
    }
  }

  /**
   * `markOrderComplete` makes every item of the orders with id `orderId`
   * ready, changing nothing else about them, and leaves every other order as it was.
   */
  lemma {:induction false} MarkOrderCompleteEffect(orders: seq<KitchenOrder>, orderId: string, k: int)
    requires 0 <= k < |orders|
    ensures var r := OrderMarkedComplete(orders, orderId);
      if orders[k].id == orderId then
        && r[k].(items := orders[k].items) == orders[k]
        && |r[k].items| == |orders[k].items|
        && forall j :: 0 <= j < |r[k].items| ==> r[k].items[j] == orders[k].items[j].(status := Ready)
      else
        r[k] == orders[k]
  {
    if k > 0 {
      MarkOrderCompleteEffect(orders[1..], orderId, k - 1);
    } else if orders[0].id == orderId {
      forall j | 0 <= j < |orders[0].items| {
        ItemsAllReadyAt(orders[0].items, j);
      }
    }
  }

  /** Marking an order complete twice is the same as marking it once. */
  lemma {:induction false} MarkOrderCompleteIdempotent(orders: seq<KitchenOrder>, orderId: string)
    ensures OrderMarkedComplete(OrderMarkedComplete(orders, orderId), orderId) == OrderMarkedComplete(orders, orderId)
  {
    if orders != [] {
      MarkOrderCompleteIdempotent(orders[1..], orderId);
      ItemsAllReadyIdempotent(orders[0].items);
    }
  }

  lemma {:induction false} ItemsAllReadyIdempotent(items: seq<KitchenItem>)
    ensures ItemsAllReady(ItemsAllReady(items)) == ItemsAllReady(items)
  {
    if items != [] {
      ItemsAllReadyIdempotent(items[1..]);
    }
  }

  // ---------------------------------------------------------------------------
  // activeOrders / completedOrders

  /** Some item of the order is not yet ready: the order belongs on the active tab. */
  predicate HasUnreadyItem(items: seq<KitchenItem>) {
    exists it :: it in items && it.status != Ready
  }

  /** Every item of the order is ready (vacuously so for no items): the order belongs on the completed tab. */
  predicate AllItemsReady(items: seq<KitchenItem>) {
    forall it :: it in items ==> it.status == Ready
  }

  predicate IsActive(o: KitchenOrder) {
    HasUnreadyItem(o.items)
  }

  predicate IsCompleted(o: KitchenOrder) {
    AllItemsReady(o.items)
  }

  function ActiveOrders(orders: seq<KitchenOrder>): seq<KitchenOrder> {
    Filter(orders, IsActive)
  }

  function CompletedOrders(orders: seq<KitchenOrder>): seq<KitchenOrder> {
    Filter(orders, IsCompleted)
  }

  /**
   * The active and completed tabs partition the orders: each order is in
   * exactly one of them (an order without items is completed), and together
   * they hold every order exactly as often as the collection does.
   */
  lemma ActiveCompletedPartition(orders: seq<KitchenOrder>)
    ensures |ActiveOrders(orders)| + |CompletedOrders(orders)| == |orders|
    ensures multiset(ActiveOrders(orders)) + multiset(CompletedOrders(orders)) == multiset(orders)
    ensures forall o :: o in orders ==> (o in ActiveOrders(orders) <==> o !in CompletedOrders(orders))
    ensures forall o :: o in orders && o.items == [] ==> o in CompletedOrders(orders)
  {
    FilterSplit(orders, IsActive, IsCompleted);
  }

  /** After `markOrderComplete(orderId)`, that order shows under completed and not under active. */
  lemma MarkOrderCompleteRoutesToCompleted(orders: seq<KitchenOrder>, orderId: string, k: int)
    requires 0 <= k < |orders| && orders[k].id == orderId
    ensures var r := OrderMarkedComplete(orders, orderId);
      r[k] in CompletedOrders(r) && r[k] !in ActiveOrders(r)
  {
    var r := OrderMarkedComplete(orders, orderId);
    MarkOrderCompleteEffect(orders, orderId, k);
    assert r[k] in r;
    forall it | it in r[k].items ensures it.status == Ready {
      var j :| 0 <= j < |r[k].items| && r[k].items[j] == it;
    }
  }

  // ---------------------------------------------------------------------------
  // The one-minute countdown

  /** The updater applied every minute: each order's estimated time drops by one minute, but not below zero. */
  function CountdownTicked(orders: seq<KitchenOrder>): (r: seq<KitchenOrder>)
    ensures |r| == |orders|
  {
    if orders == [] then []
    else
      var o := orders[0];
      [o.(estimatedTime := if o.estimatedTime - 1 > 0 then o.estimatedTime - 1 else 0)]
      + CountdownTicked(orders[1..])
  }

  /**
   * One tick leaves every field but `estimatedTime` unchanged and lowers the
   * time by one minute down to zero: the new time is never negative, never
   * larger than a non-negative old time, and zero stays zero.
   */
  lemma {:induction false} CountdownTickedAt(orders: seq<KitchenOrder>, k: int)
    requires 0 <= k < |orders|
    ensures var t, t' := orders[k].estimatedTime, CountdownTicked(orders)[k].estimatedTime;
      && CountdownTicked(orders)[k] == orders[k].(estimatedTime := t')
      && t' >= 0
      && (t > 0 ==> t' == t - 1)
      && (t <= 0 ==> t' == 0)
      && (t >= 0 ==> t' <= t)
  {
    if k > 0 {
      CountdownTickedAt(orders[1..], k - 1);
    }
  }

  /** `n` successive ticks. */
  function CountdownTickedTimes(orders: seq<KitchenOrder>, n: nat): (r: seq<KitchenOrder>)
    ensures |r| == |orders|
  {
    if n == 0 then orders else CountdownTicked(CountdownTickedTimes(orders, n - 1))
  }

  /** After `n` minutes a non-negative time `t` reads `max(0, t - n)`: the countdown reaches zero and stays there. */
  lemma {:induction false} CountdownAfterMinutes(orders: seq<KitchenOrder>, n: nat, k: int)
    requires 0 <= k < |orders| && orders[k].estimatedTime >= 0
    ensures var t := orders[k].estimatedTime;
      CountdownTickedTimes(orders, n)[k] == orders[k].(estimatedTime := if t - n > 0 then t - n else 0)
  {
    if n > 0 {
      CountdownAfterMinutes(orders, n - 1, k);
      CountdownTickedAt(CountdownTickedTimes(orders, n - 1), k);
    }
  }

  /** The countdown never moves an order between the active and completed tabs. */
  lemma {:induction false} CountdownKeepsTabs(orders: seq<KitchenOrder>)
    ensures |ActiveOrders(CountdownTicked(orders))| == |ActiveOrders(orders)|
    ensures |CompletedOrders(CountdownTicked(orders))| == |CompletedOrders(orders)|
  {
    if orders != [] {
      CountdownKeepsTabs(orders[1..]);
      CountdownTickedAt(orders, 0);
      var r := CountdownTicked(orders);
      assert r == [r[0]] + CountdownTicked(orders[1..]);
      assert orders == [orders[0]] + orders[1..];
      FilterConcat([r[0]], CountdownTicked(orders[1..]), IsActive);
      FilterConcat([orders[0]], orders[1..], IsActive);
      FilterConcat([r[0]], CountdownTicked(orders[1..]), IsCompleted);
      FilterConcat([orders[0]], orders[1..], IsCompleted);
    }
  }

  // ---------------------------------------------------------------------------
  // Stats bar and per-order derivations

  function EstimatedTime(o: KitchenOrder): int {
    o.estimatedTime
  }

  /**
   * "Avg. Time Left": the summed estimated time of the active orders divided
   * by `Math.max(activeOrders.length, 1)`, as an exact quotient.
   */
  function AverageTimeLeft(orders: seq<KitchenOrder>): (avg: real)
    ensures |ActiveOrders(orders)| == 0 ==> avg == 0.0
    ensures (forall o :: o in orders ==> o.estimatedTime >= 0) ==> avg >= 0.0
  {
    var active := ActiveOrders(orders);
    var divisor := if |active| > 1 then |active| else 1;
    (Sum(active, EstimatedTime) as real) / (divisor as real)
  }

  /** With every time in `[0, m]`, the average lies in `[0, m]` too. */
  lemma AverageTimeLeftAtMost(orders: seq<KitchenOrder>, m: int)
    requires 0 <= m && forall o :: o in orders ==> 0 <= o.estimatedTime <= m
    ensures 0.0 <= AverageTimeLeft(orders) <= m as real
  {
    var active := ActiveOrders(orders);
    SumAtMost(active, EstimatedTime, m);
    var divisor := if |active| > 1 then |active| else 1;
    var total := Sum(active, EstimatedTime);
    if |active| > 0 {
      assert active[0] in active;
      QuotientAtMost(total, divisor, m);
      assert AverageTimeLeft(orders) == (total as real) / (divisor as real);
    }
  }

  /** Helper: a total of at most `divisor * m`, divided by `divisor`, is at most `m`. */
  lemma QuotientAtMost(total: int, divisor: int, m: int)
    requires divisor > 0 && total <= divisor * m
    ensures (total as real) / (divisor as real) <= m as real
  {
    assert (divisor * m) as real == (divisor as real) * (m as real);
  }

  /** "Urgent Orders": the active orders of priority urgent, never more than the active orders. */
  function UrgentCount(orders: seq<KitchenOrder>): (n: nat)
    ensures n <= |ActiveOrders(orders)|
  {
    |Filter(ActiveOrders(orders), (o: KitchenOrder) => o.priority == Urgent)|
  }

  predicate IsReady(it: KitchenItem) {
    it.status == Ready
  }

  predicate IsNotReady(it: KitchenItem) {
    it.status != Ready
  }

  /** The "x" of "x of n items ready". */
  function ReadyItemCount(items: seq<KitchenItem>): (x: nat)
    ensures x <= |items|
  {
    |Filter(items, IsReady)|
  }

  /** Every item is ready exactly when the ready count reaches the item count; so under the "Mark All Items Ready" button the count is below it. */
  lemma ReadyItemCountFull(items: seq<KitchenItem>)
    ensures ReadyItemCount(items) == |items| <==> AllItemsReady(items)
    ensures !AllItemsReady(items) ==> ReadyItemCount(items) < |items|
  {
    FilterSplit(items, IsReady, IsNotReady);
    if ReadyItemCount(items) == |items| {
      assert Filter(items, IsNotReady) == [];
    }
    if AllItemsReady(items) {
      FilterAll(items, IsReady);
    }
  }

  /** `hasUrgentItems`: an urgent order that still has a pending item. */
  predicate HasUrgentItems(o: KitchenOrder) {
    exists it :: it in o.items && it.status == Pending && o.priority == Urgent
  }

  /** A highlighted (urgent, pending) order is always an active, urgent one, so it is among those counted by `UrgentCount`. */
  lemma HasUrgentItemsIsActiveUrgent(orders: seq<KitchenOrder>, o: KitchenOrder)
    requires o in orders && HasUrgentItems(o)
    ensures o in ActiveOrders(orders) && o.priority == Urgent
    ensures o in Filter(ActiveOrders(orders), (o: KitchenOrder) => o.priority == Urgent)
  {
  }

  // ---------------------------------------------------------------------------
  // The per-item buttons

  /**
   * The status the item's button moves it to: "Start Cooking" on a pending
   * item, "Mark Ready" on a preparing item, and no button on a ready item.
   */
  function ItemAction(s: ItemStatus): Option<ItemStatus> {
    match s
    case Pending => Some(Preparing)
    case Preparing => Some(Ready)
    case Ready => None
  }

  /** The buttons only ever move an item one step forward, and exactly the ready items have none. */
  lemma ItemActionIsForwardStep(s: ItemStatus)
    ensures ItemAction(s).None? <==> s == Ready
    ensures ItemAction(s).Some? ==> Rank(ItemAction(s).value) == Rank(s) + 1
  {
  }

  predicate UniqueOrderIds(orders: seq<KitchenOrder>) {
    forall a, b :: 0 <= a < b < |orders| ==> orders[a].id != orders[b].id
  }

  predicate UniqueItemIds(items: seq<KitchenItem>) {
    forall a, b :: 0 <= a < b < |items| ==> items[a].id != items[b].id
  }

  /**
   * Pressing the button of item `j` of order `k`, when order ids and the item
   * ids of that order are unique, moves that one item one step forward and
   * leaves every other item of every order as it was.
   */
  lemma PressItemButton(orders: seq<KitchenOrder>, k: int, j: int)
    requires 0 <= k < |orders| && 0 <= j < |orders[k].items|
    requires UniqueOrderIds(orders) && UniqueItemIds(orders[k].items)
    requires orders[k].items[j].status != Ready
    ensures var item := orders[k].items[j];
      var r := ItemStatusUpdated(orders, orders[k].id, item.id, ItemAction(item.status).value);
      && Rank(r[k].items[j].status) == Rank(item.status) + 1
      && forall a, b :: 0 <= a < |orders| && 0 <= b < |orders[a].items| && (a != k || b != j) ==>
           |r[a].items| == |orders[a].items| && r[a].items[b] == orders[a].items[b]
  {
    var item := orders[k].items[j];
    var s := ItemAction(item.status).value;
    var r := ItemStatusUpdated(orders, orders[k].id, item.id, s);
    UpdateItemStatusEffect(orders, orders[k].id, item.id, s, k, j);
    forall a, b | 0 <= a < |orders| && 0 <= b < |orders[a].items| && (a != k || b != j)
      ensures |r[a].items| == |orders[a].items| && r[a].items[b] == orders[a].items[b]
    {
      UpdateItemStatusEffect(orders, orders[k].id, item.id, s, a, b);
      if a != k {
        assert orders[a].id != orders[k].id by {
          if a < k { assert orders[a].id != orders[k].id; } else { assert orders[k].id != orders[a].id; }
        }
      } else {
        assert orders[k].items[b].id != item.id by {
          if b < j { assert orders[k].items[b].id != orders[k].items[j].id; }
          else { assert orders[k].items[j].id != orders[k].items[b].id; }
        }
      }
    }
  }

  // ---------------------------------------------------------------------------
  // The state cell

  /** The kitchen display's `orders` state, replaced on every action and every tick. */
  class KitchenDisplay {
    var orders: seq<KitchenOrder>

    /** No order's countdown is below zero. */
    ghost predicate Valid()
      reads this
    {
      forall o :: o in orders ==> o.estimatedTime >= 0
    }

    constructor (initial: seq<KitchenOrder>)
      requires forall o :: o in initial ==> o.estimatedTime >= 0
      ensures Valid() && orders == initial
    {
      orders := initial;
    }

    method UpdateItemStatus(orderId: string, itemId: string, newStatus: ItemStatus)
      requires Valid()
      modifies this
      ensures Valid()
      ensures orders == ItemStatusUpdated(old(orders), orderId, itemId, newStatus)
    {
      var before := orders;
      orders := ItemStatusUpdated(orders, orderId, itemId, newStatus);
      forall o | o in orders ensures o.estimatedTime >= 0 {
        var k :| 0 <= k < |orders| && orders[k] == o;
        ItemStatusUpdatedAt(before, orderId, itemId, newStatus, k);
        assert before[k] in before;
      }
    }

    method MarkOrderComplete(orderId: string)
      requires Valid()
      modifies this
      ensures Valid()
      ensures orders == OrderMarkedComplete(old(orders), orderId)
    {
      var before := orders;
      orders := OrderMarkedComplete(orders, orderId);
      forall o | o in orders ensures o.estimatedTime >= 0 {
        var k :| 0 <= k < |orders| && orders[k] == o;
        MarkOrderCompleteEffect(before, orderId, k);
        assert before[k] in before;
      }
    }

    /** The body of the one-minute interval. */
    method Tick()
      modifies this
      ensures Valid()
      ensures orders == CountdownTicked(old(orders))
    {
      var before := orders;
      orders := CountdownTicked(orders);
      forall o | o in orders ensures o.estimatedTime >= 0 {
        var k :| 0 <= k < |orders| && orders[k] == o;
        CountdownTickedAt(before, k);
      }
    }
  }
}
