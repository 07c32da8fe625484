/**
 * The manager's inventory page (app/manager/inventory/page.tsx): the search
 * box and category buttons over the stock list, the category buttons
 * themselves, the low-stock alerts, the stock value, and the reorder button.
 */
module Inventory {
  import opened Seqs
  import opened Text

  datatype StockStatus = InStock | LowStock | OutOfStock

  datatype InventoryItem = InventoryItem(
    id: string,
    name: string,
    category: string,
    currentStock: int,
    minStock: int,
    unit: string,
    costPerUnit: int,
    supplier: string,
    lastRestocked: string,
    status: StockStatus)

  // ---------------------------------------------------------------------------
  // filteredItems

  /** The item's name contains the search term, both lower-cased. */
  predicate MatchesSearch(item: InventoryItem, searchTerm: string) {
    Contains(Lower(item.name), Lower(searchTerm))
  }

  /** The "all" button matches every item; any other matches its own category. */
  predicate MatchesCategory(item: InventoryItem, categoryFilter: string) {
    categoryFilter == "all" || item.category == categoryFilter
  }

  predicate Matches(item: InventoryItem, searchTerm: string, categoryFilter: string) {
    MatchesSearch(item, searchTerm) && MatchesCategory(item, categoryFilter)
  }

  function FilteredItems(items: seq<InventoryItem>, searchTerm: string, categoryFilter: string): seq<InventoryItem> {
    Filter(items, (item: InventoryItem) => Matches(item, searchTerm, categoryFilter))
  }

  /**
   * The table lists, in stock-list order, exactly the items whose name holds
   * the search term at some position (ignoring case) and whose category
   * passes the category button, each as often as in the stock list.
   */
  lemma FilteredItemsSpec(items: seq<InventoryItem>, searchTerm: string, categoryFilter: string)
    ensures var r := FilteredItems(items, searchTerm, categoryFilter);
      && IsSubsequence(r, items)
      && |r| <= |items|
      && (forall item :: item in r <==>
           && item in items
           && (exists i :: OccursAt(Lower(item.name), Lower(searchTerm), i))
           && (categoryFilter == "all" || item.category == categoryFilter))
      && forall item :: multiset(r)[item] == if Matches(item, searchTerm, categoryFilter) then multiset(items)[item] else 0
  {
    var p := (item: InventoryItem) => Matches(item, searchTerm, categoryFilter);
    FilterIsSubsequence(items, p);
    forall item: InventoryItem {
      ContainsIff(Lower(item.name), Lower(searchTerm));
    }
    forall item: InventoryItem {
      FilterMultiset(items, p, item);
    }
  }

  /** With an empty search box and the "all" button the whole stock list is shown. */
  lemma EmptySearchShowsAll(items: seq<InventoryItem>)
    ensures FilteredItems(items, "", "all") == items
  {
    forall item | item in items ensures Matches(item, "", "all") {
      ContainsEmpty(Lower(item.name));
    }
    FilterAll(items, (item: InventoryItem) => Matches(item, "", "all"));
  }

  /** The search ignores case on both sides. */
  lemma SearchIgnoresCase(items: seq<InventoryItem>, searchTerm: string, categoryFilter: string)
    ensures FilteredItems(items, Lower(searchTerm), categoryFilter) == FilteredItems(items, searchTerm, categoryFilter)
  {
    LowerIdempotent(searchTerm);
    FilterCongruent(items,
      (item: InventoryItem) => Matches(item, Lower(searchTerm), categoryFilter),
      (item: InventoryItem) => Matches(item, searchTerm, categoryFilter));
  }

  // ---------------------------------------------------------------------------
  // categories

  function CategoryColumn(items: seq<InventoryItem>): (r: seq<string>)
    ensures |r| == |items|
    ensures forall k :: 0 <= k < |items| ==> r[k] == items[k].category
  {
    if items == [] then [] else [items[0].category] + CategoryColumn(items[1..])
  }

  /** The category buttons: "all", then each distinct category in order of first appearance, as a `Set` keeps them. */
  function Categories(items: seq<InventoryItem>): seq<string> {
    ["all"] + Dedup(CategoryColumn(items))
  }

  /** A string is in the category column exactly when some item has it as its category. */
  lemma CategoryColumnMembers(items: seq<InventoryItem>, x: string)
    ensures x in CategoryColumn(items) <==> exists k :: 0 <= k < |items| && items[k].category == x
  {
    var col := CategoryColumn(items);
    if x in col {
      var k :| 0 <= k < |col| && col[k] == x;
      assert items[k].category == x;
    }
    if k :| 0 <= k < |items| && items[k].category == x {
      assert col[k] == x;
    }
  }

  /** After "all" the buttons list every category of the stock exactly once and nothing else. */
  lemma CategoriesSpec(items: seq<InventoryItem>)
    ensures Categories(items)[0] == "all"
    ensures NoDuplicates(Categories(items)[1..])
    ensures forall x :: x in Categories(items)[1..] <==> exists k :: 0 <= k < |items| && items[k].category == x
  {
    var d := Dedup(CategoryColumn(items));
    assert Categories(items)[1..] == d;
    forall x ensures x in d <==> exists k :: 0 <= k < |items| && items[k].category == x {
      CategoryColumnMembers(items, x);
    }
  }

  /** The buttons after "all" are ordered by where each category first appears in the stock list. */
  lemma CategoriesOrder(items: seq<InventoryItem>, i: int, j: int)
    requires 1 <= i < j < |Categories(items)|
    ensures Categories(items)[i] in CategoryColumn(items) && Categories(items)[j] in CategoryColumn(items)
    ensures FirstIndex(CategoryColumn(items), Categories(items)[i]) < FirstIndex(CategoryColumn(items), Categories(items)[j])
  {
    DedupOrderAfterHead("all", CategoryColumn(items), i, j);
  }

  /** The "Categories" card shows `categories.length - 1`: the number of distinct categories in the stock. */
  lemma CategoryCountIsDistinctCategories(items: seq<InventoryItem>)
    ensures |Categories(items)| - 1 == |set item | item in items :: item.category|
  {
    var col := CategoryColumn(items);
    NoDuplicatesCardinality(Dedup(col));
    assert Elements(Dedup(col)) == set item | item in items :: item.category by {
      forall x ensures x in Elements(Dedup(col)) <==> x in set item | item in items :: item.category {
        if x in col {
          var k :| 0 <= k < |col| && col[k] == x;
          assert items[k] in items;
        }
        if x in set item | item in items :: item.category {
          var item :| item in items && item.category == x;
          var k :| 0 <= k < |items| && items[k] == item;
          assert col[k] == x;
        }
      }
    }
  }

  /** When no item's category is literally "all", no button appears twice. */
  lemma CategoriesDistinct(items: seq<InventoryItem>)
    requires forall item :: item in items ==> item.category != "all"
    ensures NoDuplicates(Categories(items))
  {
    var col := CategoryColumn(items);
    var c := Categories(items);
    forall j | 1 <= j < |c| ensures c[j] != "all" {
      assert c[j] in Dedup(col);
      var k :| 0 <= k < |col| && col[k] == c[j];
      assert items[k] in items;
    }
    forall i, j | 0 <= i < j < |c| ensures c[i] != c[j] {
      if i > 0 {
        assert c[i] == Dedup(col)[i - 1] && c[j] == Dedup(col)[j - 1];
      }
    }
  }

  // ---------------------------------------------------------------------------
  // lowStockItems, totalValue, the reorder button

  predicate IsLowStockAlert(item: InventoryItem) {
    item.status == LowStock || item.status == OutOfStock
  }

  function LowStockItems(items: seq<InventoryItem>): seq<InventoryItem> {
    Filter(items, IsLowStockAlert)
  }

  /** The reorder button is shown on a row whose status is not "in-stock". */
  predicate ShowsReorder(item: InventoryItem) {
    item.status != InStock
  }

  /**
   * The low-stock alerts are exactly the items that carry a reorder button,
   * in stock-list order and each as often as in the stock list, and never
   * outnumber the stock list.
   */
  lemma LowStockItemsAreReorderable(items: seq<InventoryItem>)
    ensures var r := LowStockItems(items);
      && IsSubsequence(r, items)
      && |r| <= |items|
      && (forall item :: item in r <==> item in items && ShowsReorder(item))
      && forall item :: multiset(r)[item] == if ShowsReorder(item) then multiset(items)[item] else 0
  {
    FilterIsSubsequence(items, IsLowStockAlert);
    forall item: InventoryItem {
      FilterMultiset(items, IsLowStockAlert, item);
    }
  }

  /** Every item is either in stock or an alert, so the two kinds split the stock list, each item going to exactly one side. */
  lemma AlertsAndInStockPartition(items: seq<InventoryItem>)
    ensures |LowStockItems(items)| + |Filter(items, (item: InventoryItem) => item.status == InStock)| == |items|
    ensures multiset(LowStockItems(items)) + multiset(Filter(items, (item: InventoryItem) => item.status == InStock)) == multiset(items)
  {
    FilterSplit(items, IsLowStockAlert, (item: InventoryItem) => item.status == InStock);
  }

  function StockValue(item: InventoryItem): int {
    item.currentStock * item.costPerUnit
  }

  /** The "Total Value" card: the sum of stock times unit cost. */
  function TotalValue(items: seq<InventoryItem>): (v: int)
    ensures (forall item :: item in items ==> item.currentStock >= 0 && item.costPerUnit >= 0) ==> v >= 0
  {
    Sum(items, StockValue)
  }

  /** The value of an out-of-stock item does not count: removing all of them keeps the total. */
  lemma OutOfStockAddsNothing(items: seq<InventoryItem>)
    requires forall item :: item in items && item.status == OutOfStock ==> item.currentStock == 0
    ensures TotalValue(items) == TotalValue(Filter(items, (item: InventoryItem) => item.status != OutOfStock))
  {
    SumZeroOutside(items, StockValue, (item: InventoryItem) => item.status != OutOfStock);
  }
}
