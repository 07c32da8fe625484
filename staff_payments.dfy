/**
 * The staff payments screen (app/staff/payments/page.tsx): the bills, the
 * search box and status buttons over them, the pending and paid totals, the
 * count of active bills, and the action buttons of each bill.
 */
module StaffPayments {
  import opened Seqs
  import opened StaffCommon

  datatype PaymentMethod = Card | Cash | Transfer

  datatype PaymentStatus = Pending | Paid | Split

  /** The status as the page spells it. */
  function StatusName(s: PaymentStatus): string {
    match s
    case Pending => "pending"
    case Paid => "paid"
    case Split => "split"
  }

  /** Distinct statuses have distinct names, none of them "all". */
  lemma StatusNameInjective(s: PaymentStatus, t: PaymentStatus)
    ensures StatusName(s) == StatusName(t) <==> s == t
    ensures StatusName(s) != "all"
  {
  }

  /** A bill; the page's field `method` is named `paymentMethod`, since `method` is a Dafny keyword. */
  datatype Payment = Payment(
    id: string,
    tableNumber: int,
    customerName: string,
    orderNumber: string,
    amount: int,
    paymentMethod: PaymentMethod,
    status: PaymentStatus,
    items: seq<BillLine>,
    orderTime: string)

  // ---------------------------------------------------------------------------
  // filteredPayments

  predicate Matches(p: Payment, searchTerm: string, statusFilter: string) {
    && MatchesOrderSearch(p.orderNumber, p.customerName, p.tableNumber, searchTerm)
    && MatchesStatusFilter(statusFilter, StatusName(p.status))
  }

  function FilteredPayments(payments: seq<Payment>, searchTerm: string, statusFilter: string): seq<Payment> {
    Filter(payments, (p: Payment) => Matches(p, searchTerm, statusFilter))
  }

  /** The listed bills are, in order, exactly those that match the search and the status button, each as often as in the list. */
  lemma FilteredPaymentsSpec(payments: seq<Payment>, searchTerm: string, statusFilter: string)
    ensures var r := FilteredPayments(payments, searchTerm, statusFilter);
      && IsSubsequence(r, payments)
      && (forall p :: p in r <==>
           && p in payments
           && MatchesOrderSearch(p.orderNumber, p.customerName, p.tableNumber, searchTerm)
           && (statusFilter == "all" || StatusName(p.status) == statusFilter))
      && forall p :: multiset(r)[p] == if Matches(p, searchTerm, statusFilter) then multiset(payments)[p] else 0
  {
    var m := (p: Payment) => Matches(p, searchTerm, statusFilter);
    FilterIsSubsequence(payments, m);
    forall p: Payment {
      FilterMultiset(payments, m, p);
    }
  }

  predicate HasStatus(s: PaymentStatus, p: Payment) {
    p.status == s
  }

  /** The bills with status `s`, in order. */
  function WithStatus(payments: seq<Payment>, s: PaymentStatus): seq<Payment> {
    Filter(payments, (p: Payment) => HasStatus(s, p))
  }

  /** With the search box empty, "all" lists every bill and a status button lists exactly the bills with that status. */
  lemma StatusButtonSelects(payments: seq<Payment>, s: PaymentStatus)
    ensures FilteredPayments(payments, "", "all") == payments
    ensures FilteredPayments(payments, "", StatusName(s)) == WithStatus(payments, s)
  {
    forall p | p in payments ensures MatchesOrderSearch(p.orderNumber, p.customerName, p.tableNumber, "") {
      EmptySearchMatches(p.orderNumber, p.customerName, p.tableNumber);
    }
    FilterAll(payments, (p: Payment) => Matches(p, "", "all"));
    FilterCongruent(payments, (p: Payment) => Matches(p, "", StatusName(s)), (p: Payment) => HasStatus(s, p));
  }

  /** A status filter that names no status lists nothing. */
  lemma UnknownStatusListsNothing(payments: seq<Payment>, searchTerm: string, statusFilter: string)
    requires statusFilter != "all"
    requires forall s: PaymentStatus :: StatusName(s) != statusFilter
    ensures FilteredPayments(payments, searchTerm, statusFilter) == []
  {
    FilterNone(payments, (p: Payment) => Matches(p, searchTerm, statusFilter));
  }

  /** The status buttons: "All Bills", "Pending", "Paid"; there is none for split bills. */
  const StatusButtons: seq<string> := ["all", "pending", "paid"]

  /** A split bill is listed only under "All Bills". */
  lemma SplitBillsOnlyUnderAll(payments: seq<Payment>, searchTerm: string, statusFilter: string, p: Payment)
    requires statusFilter in StatusButtons && p.status == Split
    requires p in FilteredPayments(payments, searchTerm, statusFilter)
    ensures statusFilter == "all"
  {
  }

  // ---------------------------------------------------------------------------
  // The summary cards

  function Amount(p: Payment): int {
    p.amount
  }

  /** "Pending Payments": the sum of the pending bills' amounts. */
  function TotalPending(payments: seq<Payment>): int {
    Sum(WithStatus(payments, Pending), Amount)
  }

  /** "Paid Today": the sum of the paid bills' amounts. */
  function TotalPaid(payments: seq<Payment>): int {
    Sum(WithStatus(payments, Paid), Amount)
  }

  /** "Active Bills": the number of bills not paid yet. */
  function ActiveBills(payments: seq<Payment>): nat {
    |Filter(payments, (p: Payment) => p.status != Paid)|
  }

  /** The pending total, the paid total and the split bills' amounts add up to the amount of all bills. */
  lemma TotalsCoverAllBills(payments: seq<Payment>)
    ensures TotalPending(payments) + TotalPaid(payments) + Sum(WithStatus(payments, Split), Amount)
         == Sum(payments, Amount)
  {
    var unpaid := (p: Payment) => p.status != Paid;
    var isPaid := (p: Payment) => HasStatus(Paid, p);
    var isPending := (p: Payment) => HasStatus(Pending, p);
    var isSplit := (p: Payment) => HasStatus(Split, p);
    SumSplit(payments, Amount, unpaid, isPaid);
    var rest := Filter(payments, unpaid);
    SumSplit(rest, Amount, isPending, isSplit);
    FilterOfFilter(payments, unpaid, isPending);
    FilterOfFilter(payments, unpaid, isSplit);
  }

  /** Every bill is either active or paid, and the active ones are exactly the pending and split ones. */
  lemma ActiveBillsCount(payments: seq<Payment>)
    ensures ActiveBills(payments) + |WithStatus(payments, Paid)| == |payments|
    ensures ActiveBills(payments) == |WithStatus(payments, Pending)| + |WithStatus(payments, Split)|
  {
    var unpaid := (p: Payment) => p.status != Paid;
    var isPending := (p: Payment) => HasStatus(Pending, p);
    var isSplit := (p: Payment) => HasStatus(Split, p);
    FilterSplit(payments, unpaid, (p: Payment) => HasStatus(Paid, p));
    FilterSplit(Filter(payments, unpaid), isPending, isSplit);
    FilterOfFilter(payments, unpaid, isPending);
    FilterOfFilter(payments, unpaid, isSplit);
  }

  /** With non-negative amounts neither total is negative and each is at most the sum of all amounts. */
  lemma TotalsBounded(payments: seq<Payment>)
    requires forall p :: p in payments ==> p.amount >= 0
    ensures 0 <= TotalPending(payments) <= Sum(payments, Amount)
    ensures 0 <= TotalPaid(payments) <= Sum(payments, Amount)
  {
    TotalsCoverAllBills(payments);
  }

  // ---------------------------------------------------------------------------
  // The buttons on each bill

  /** The status-dependent buttons of a bill. */
  function StatusActions(s: PaymentStatus): seq<string> {
    match s
    case Pending => ["Process Payment", "Split Bill"]
    case Paid => ["Print Receipt"]
    case Split => ["Manage Split"]
  }

  /** Every bill has "View Bill Details", then the buttons of its status. */
  function BillButtons(p: Payment): seq<string> {
    ["View Bill Details"] + StatusActions(p.status)
  }

  /**
   * Every bill offers its details and at least one action; a payment can be
   * processed exactly when the bill is pending, a receipt printed exactly when
   * it is paid, a split managed exactly when it is split; different statuses
   * never share an action.
   */
  lemma BillButtonsSpec(p: Payment, s: PaymentStatus, t: PaymentStatus)
    ensures BillButtons(p)[0] == "View Bill Details" && |BillButtons(p)| >= 2
    ensures "Process Payment" in BillButtons(p) <==> p.status == Pending
    ensures "Split Bill" in BillButtons(p) <==> p.status == Pending
    ensures "Print Receipt" in BillButtons(p) <==> p.status == Paid
    ensures "Manage Split" in BillButtons(p) <==> p.status == Split
    ensures s != t ==> forall a :: a in StatusActions(s) ==> a !in StatusActions(t)
  {
  }
}
