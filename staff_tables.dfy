/**
 * The staff dashboard (app/staff/page.tsx): the tables, the search box (by
 * table number) and status buttons over them, the occupied count, the
 * revenue, and what each table card shows.
 */
module StaffTables {
  import opened Seqs
  import opened Text
  import opened StaffCommon

  datatype TableStatus = Available | Occupied | NeedsCleaning

  /** The status as the page spells it. */
  function StatusName(s: TableStatus): string {
    match s
    case Available => "available"
    case Occupied => "occupied"
    case NeedsCleaning => "needs-cleaning"
  }

  /** Distinct statuses have distinct names, none of them "all". */
  lemma StatusNameInjective(s: TableStatus, t: TableStatus)
    ensures StatusName(s) == StatusName(t) <==> s == t
    ensures StatusName(s) != "all"
  {
  }

  datatype Table = Table(
    id: string,
    number: int,
    status: TableStatus,
    customers: int,
    orderValue: int,
    timeOccupied: string)

  // ---------------------------------------------------------------------------
  // filteredTables

  /** The table number's decimal numeral holds the term exactly as typed, with no lower-casing. */
  predicate MatchesSearch(t: Table, searchTerm: string) {
    Contains(IntToString(t.number), searchTerm)
  }

  predicate Matches(t: Table, searchTerm: string, selectedStatus: string) {
    MatchesSearch(t, searchTerm) && MatchesStatusFilter(selectedStatus, StatusName(t.status))
  }

  function FilteredTables(tables: seq<Table>, searchTerm: string, selectedStatus: string): seq<Table> {
    Filter(tables, (t: Table) => Matches(t, searchTerm, selectedStatus))
  }

  /** The cards shown are, in order, exactly the tables whose number's numeral holds the term and that pass the status button, each as often as in the list. */
  lemma FilteredTablesSpec(tables: seq<Table>, searchTerm: string, selectedStatus: string)
    ensures var r := FilteredTables(tables, searchTerm, selectedStatus);
      && IsSubsequence(r, tables)
      && (forall t :: t in r <==>
           && t in tables
           && (exists i :: OccursAt(IntToString(t.number), searchTerm, i))
           && (selectedStatus == "all" || StatusName(t.status) == selectedStatus))
      && forall t :: multiset(r)[t] == if Matches(t, searchTerm, selectedStatus) then multiset(tables)[t] else 0
  {
    var m := (t: Table) => Matches(t, searchTerm, selectedStatus);
    FilterIsSubsequence(tables, m);
    forall t: Table {
      ContainsIff(IntToString(t.number), searchTerm);
    }
    forall t: Table {
      FilterMultiset(tables, m, t);
    }
  }

  /** With an empty search box and "all", every table is shown, in order. */
  lemma EmptySearchShowsAll(tables: seq<Table>)
    ensures FilteredTables(tables, "", "all") == tables
  {
    forall t | t in tables ensures Matches(t, "", "all") {
      ContainsEmpty(IntToString(t.number));
    }
    FilterAll(tables, (t: Table) => Matches(t, "", "all"));
  }

  /** Typing a table's number shows that table under "all" and under its own status. */
  lemma OwnNumberFindsTable(tables: seq<Table>, t: Table)
    requires t in tables
    ensures t in FilteredTables(tables, IntToString(t.number), "all")
    ensures t in FilteredTables(tables, IntToString(t.number), StatusName(t.status))
  {
    ContainsSelf(IntToString(t.number));
  }

  /** A term with any character other than a digit or a minus sign (a letter, a space: "Table 3") shows no table at all. */
  lemma NonNumericSearchShowsNothing(tables: seq<Table>, searchTerm: string, selectedStatus: string, k: int)
    requires 0 <= k < |searchTerm| && !IsDigit(searchTerm[k]) && searchTerm[k] != '-'
    ensures FilteredTables(tables, searchTerm, selectedStatus) == []
  {
    forall t | t in tables ensures !MatchesSearch(t, searchTerm) {
      if MatchesSearch(t, searchTerm) {
        NumeralSearchNeedsDigits(t.number, searchTerm, k);
        assert false;
      }
    }
    FilterNone(tables, (t: Table) => Matches(t, searchTerm, selectedStatus));
  }

  // ---------------------------------------------------------------------------
  // The summary cards

  predicate IsOccupied(t: Table) {
    t.status == Occupied
  }

  /** "Occupied Tables": the number of occupied tables, never more than the tables there are. */
  function OccupiedTables(tables: seq<Table>): (n: nat)
    ensures n <= |tables|
    ensures n == |tables| <==> forall t :: t in tables ==> IsOccupied(t)
  {
    OccupiedCountFull(tables);
    |Filter(tables, IsOccupied)|
  }

  /** The filter keeps everything exactly when every table passes. */
  lemma {:induction false} OccupiedCountFull(tables: seq<Table>)
    ensures |Filter(tables, IsOccupied)| == |tables| <==> forall t :: t in tables ==> IsOccupied(t)
  {
    if tables != [] {
      assert tables[0] in tables;
      assert forall t :: t in tables[1..] ==> t in tables;
      assert forall t :: t in tables ==> t == tables[0] || t in tables[1..];
      OccupiedCountFull(tables[1..]);
    }
  }

  function OrderValue(t: Table): int {
    t.orderValue
  }

  /** "Today's Revenue": the order value summed over all tables, whatever their status. */
  function TotalRevenue(tables: seq<Table>): (r: int)
    ensures (forall t :: t in tables ==> t.orderValue >= 0) ==> r >= 0
  {
    Sum(tables, OrderValue)
  }

  /** When only occupied tables carry an order value, the revenue is the occupied tables' order value. */
  lemma RevenueFromOccupiedTables(tables: seq<Table>)
    requires forall t :: t in tables && !IsOccupied(t) ==> t.orderValue == 0
    ensures TotalRevenue(tables) == Sum(Filter(tables, IsOccupied), OrderValue)
  {
    SumZeroOutside(tables, OrderValue, IsOccupied);
  }

  // ---------------------------------------------------------------------------
  // A table card

  /** The customers / order value / time block is shown for occupied tables. */
  predicate ShowsOccupancyDetails(t: Table) {
    t.status == Occupied
  }

  /** The buttons of a table card. */
  function TableButtons(t: Table): seq<string> {
    match t.status
    case Available => ["Assign Table"]
    case Occupied => ["View Details", "Process Payment"]
    case NeedsCleaning => ["Mark as Clean"]
  }

  /**
   * Every card has a button; a table can be assigned exactly when it is
   * available, cleaned exactly when it needs cleaning, and paid for (and its
   * details opened) exactly when its occupancy details are shown.
   */
  lemma TableButtonsSpec(t: Table)
    ensures |TableButtons(t)| >= 1
    ensures "Assign Table" in TableButtons(t) <==> t.status == Available
    ensures "Mark as Clean" in TableButtons(t) <==> t.status == NeedsCleaning
    ensures "Process Payment" in TableButtons(t) <==> ShowsOccupancyDetails(t)
    ensures "View Details" in TableButtons(t) <==> ShowsOccupancyDetails(t)
  {
  }
}
