/**
 * What the staff screens share: the search box over orders and bills
 * (order number and customer name ignoring case, table number as typed),
 * the status buttons with their "all" entry, and the bill lines.
 */
module StaffCommon {
  import opened Text

  /**
   * The search box matches when the order number or the customer name holds
   * the term, ignoring case, or when the table number's numeral holds the
   * term exactly as typed.
   */
  predicate MatchesOrderSearch(orderNumber: string, customerName: string, tableNumber: int, searchTerm: string) {
    || Contains(Lower(orderNumber), Lower(searchTerm))
    || Contains(Lower(customerName), Lower(searchTerm))
    || Contains(IntToString(tableNumber), searchTerm)
  }

  /** The "all" button passes every status; any other button passes only its own status. */
  predicate MatchesStatusFilter(statusFilter: string, statusName: string) {
    statusFilter == "all" || statusName == statusFilter
  }

  /** The empty search box matches every order. */
  lemma EmptySearchMatches(orderNumber: string, customerName: string, tableNumber: int)
    ensures MatchesOrderSearch(orderNumber, customerName, tableNumber, "")
  {
    ContainsEmpty(IntToString(tableNumber));
  }

  /** Typing an order's own order number, customer name or table number finds it, whatever the case of the letters typed. */
  lemma OwnFieldsMatch(orderNumber: string, customerName: string, tableNumber: int)
    ensures MatchesOrderSearch(orderNumber, customerName, tableNumber, orderNumber)
    ensures MatchesOrderSearch(orderNumber, customerName, tableNumber, Lower(orderNumber))
    ensures MatchesOrderSearch(orderNumber, customerName, tableNumber, customerName)
    ensures MatchesOrderSearch(orderNumber, customerName, tableNumber, Lower(customerName))
    ensures MatchesOrderSearch(orderNumber, customerName, tableNumber, IntToString(tableNumber))
  {
    ContainsSelf(Lower(orderNumber));
    ContainsSelf(Lower(customerName));
    ContainsSelf(IntToString(tableNumber));
    LowerIdempotent(orderNumber);
    LowerIdempotent(customerName);
  }

  /** Every character of a table number's numeral is a digit, or a leading minus sign. */
  lemma NumeralSearchNeedsDigits(tableNumber: int, searchTerm: string, k: int)
    requires Contains(IntToString(tableNumber), searchTerm)
    requires 0 <= k < |searchTerm|
    ensures IsDigit(searchTerm[k]) || searchTerm[k] == '-'
  {
    var s := IntToString(tableNumber);
    ContainsIff(s, searchTerm);
    var i :| OccursAt(s, searchTerm, i);
    assert searchTerm[k] == s[i..i + |searchTerm|][k] == s[i + k];
  }

  /** One line of a bill: an item name, its quantity and its unit price. */
  datatype BillLine = BillLine(name: string, quantity: int, price: int)

  /** The amount shown beside a bill line: quantity times price. */
  function LineAmount(line: BillLine): (a: int)
    ensures line.quantity >= 0 && line.price >= 0 ==> a >= 0
    ensures line.quantity == 1 ==> a == line.price
  {
    line.quantity * line.price
  }
}
