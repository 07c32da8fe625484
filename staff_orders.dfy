/**
 * The staff orders screen (app/staff/orders/page.tsx): the orders, the search
 * box and status buttons over them, the four status counts, and the buttons
 * of each order.
 */
module StaffOrders {
  import opened Seqs
  import opened StaffCommon

  datatype OrderStatus = Pending | Preparing | Ready | Served

  /** The status as the page spells it. */
  function StatusName(s: OrderStatus): string {
    match s
    case Pending => "pending"
    case Preparing => "preparing"
    case Ready => "ready"
    case Served => "served"
  }

  /** Distinct statuses have distinct names, none of them "all". */
  lemma StatusNameInjective(s: OrderStatus, t: OrderStatus)
    ensures StatusName(s) == StatusName(t) <==> s == t
    ensures StatusName(s) != "all"
  {
  }

  datatype StaffOrder = StaffOrder(
    id: string,
    orderNumber: string,
    tableNumber: int,
    customerName: string,
    items: seq<BillLine>,
    status: OrderStatus,
    orderTime: string,
    estimatedTime: string,
    total: int)

  // ---------------------------------------------------------------------------
  // filteredOrders

  predicate Matches(o: StaffOrder, searchTerm: string, statusFilter: string) {
    && MatchesOrderSearch(o.orderNumber, o.customerName, o.tableNumber, searchTerm)
    && MatchesStatusFilter(statusFilter, StatusName(o.status))
  }

  function FilteredOrders(orders: seq<StaffOrder>, searchTerm: string, statusFilter: string): seq<StaffOrder> {
    Filter(orders, (o: StaffOrder) => Matches(o, searchTerm, statusFilter))
  }

  /** The listed orders are, in order, exactly those that match the search and the status button, each as often as in the list. */
  lemma FilteredOrdersSpec(orders: seq<StaffOrder>, searchTerm: string, statusFilter: string)
    ensures var r := FilteredOrders(orders, searchTerm, statusFilter);
      && IsSubsequence(r, orders)
      && (forall o :: o in r <==>
           && o in orders
           && MatchesOrderSearch(o.orderNumber, o.customerName, o.tableNumber, searchTerm)
           && (statusFilter == "all" || StatusName(o.status) == statusFilter))
      && forall o :: multiset(r)[o] == if Matches(o, searchTerm, statusFilter) then multiset(orders)[o] else 0
  {
    var m := (o: StaffOrder) => Matches(o, searchTerm, statusFilter);
    FilterIsSubsequence(orders, m);
    forall o: StaffOrder {
      FilterMultiset(orders, m, o);
    }
  }

  predicate HasStatus(s: OrderStatus, o: StaffOrder) {
    o.status == s
  }

  /** The orders with status `s`, in order. */
  function WithStatus(orders: seq<StaffOrder>, s: OrderStatus): seq<StaffOrder> {
    Filter(orders, (o: StaffOrder) => HasStatus(s, o))
  }

  /** With the search box empty, "all" lists every order and a status button exactly the orders with that status. */
  lemma StatusButtonSelects(orders: seq<StaffOrder>, s: OrderStatus)
    ensures FilteredOrders(orders, "", "all") == orders
    ensures FilteredOrders(orders, "", StatusName(s)) == WithStatus(orders, s)
  {
    forall o | o in orders ensures MatchesOrderSearch(o.orderNumber, o.customerName, o.tableNumber, "") {
      EmptySearchMatches(o.orderNumber, o.customerName, o.tableNumber);
    }
    FilterAll(orders, (o: StaffOrder) => Matches(o, "", "all"));
    FilterCongruent(orders, (o: StaffOrder) => Matches(o, "", StatusName(s)), (o: StaffOrder) => HasStatus(s, o));
  }

  /** The status buttons: "All", "Pending", "Preparing", "Ready"; there is none for served orders. */
  const StatusButtons: seq<string> := ["all", "pending", "preparing", "ready"]

  /** A served order is listed only under "All". */
  lemma ServedOnlyUnderAll(orders: seq<StaffOrder>, searchTerm: string, statusFilter: string, o: StaffOrder)
    requires statusFilter in StatusButtons && o.status == Served
    requires o in FilteredOrders(orders, searchTerm, statusFilter)
    ensures statusFilter == "all"
  {
  }

  // ---------------------------------------------------------------------------
  // The four counts

  /** The count shown on the card of status `s`. */
  function CountWithStatus(orders: seq<StaffOrder>, s: OrderStatus): nat {
    |WithStatus(orders, s)|
  }

  /** The four cards together count every order exactly once. */
  lemma {:induction false} CountsAddUp(orders: seq<StaffOrder>)
    ensures CountWithStatus(orders, Pending) + CountWithStatus(orders, Preparing)
          + CountWithStatus(orders, Ready) + CountWithStatus(orders, Served) == |orders|
  {
    if orders != [] {
      CountsAddUp(orders[1..]);
    }
  }

  // ---------------------------------------------------------------------------
  // The buttons on each order

  /** The status-dependent button of an order. */
  function StatusActions(s: OrderStatus): seq<string> {
    match s
    case Ready => ["Mark as Served"]
    case Preparing => ["Check Kitchen Status"]
    case Pending => ["Send to Kitchen"]
    case Served => []
  }

  /** The status button, if any, then "View Details", which every order has. */
  function OrderButtons(o: StaffOrder): seq<string> {
    StatusActions(o.status) + ["View Details"]
  }

  /**
   * Every order ends with "View Details"; a served order has nothing else,
   * every other status exactly one action of its own, and no action belongs
   * to two statuses.
   */
  lemma OrderButtonsSpec(o: StaffOrder, s: OrderStatus, t: OrderStatus)
    ensures OrderButtons(o)[|OrderButtons(o)| - 1] == "View Details"
    ensures |OrderButtons(o)| == 1 <==> o.status == Served
    ensures o.status != Served ==> |OrderButtons(o)| == 2
    ensures "Send to Kitchen" in OrderButtons(o) <==> o.status == Pending
    ensures "Check Kitchen Status" in OrderButtons(o) <==> o.status == Preparing
    ensures "Mark as Served" in OrderButtons(o) <==> o.status == Ready
    ensures s != t ==> forall a :: a in StatusActions(s) ==> a !in StatusActions(t)
  {
  }
}
