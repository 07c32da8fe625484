# Restaurant screens: a Dafny model of their logic

The restaurant app is a set of React pages. A customer browses the menu, fills a cart, pays and tracks the order. Staff work from a kitchen display, a table dashboard, an orders list, a payments list and an inventory screen. All state is local component state over mock arrays. The rules sit inline in the pages, and this project separates them from the markup:

- **Kitchen display** (`kitchen.dfy`, module `Kitchen`).
  - Item statuses move pending → preparing → ready. `updateItemStatus` and `markOrderComplete` are nested `map` updaters.
  - The orders split into an active tab and a completed tab.
  - Every minute each order's estimated time drops by one, down to zero.
  - The stats bar shows an average, an urgent count and "x of n items ready".
  - The updaters are pure functions. The `orders` state cell is class `KitchenDisplay`, whose methods replace the field by the updater's result.
- **Menu and its cart dictionary** (`menu.dfy`, module `Menu`).
  - The category tabs.
  - A map from item id to count, changed by `addToCart` and `removeFromCart`. `removeFromCart` copies the dictionary and then changes the copy.
  - `cartItemsCount` is the sum of the counts.
  - The state cell is class `MenuCart`.
- **Cart page** (`cart.dfy`, module `CartPage`).
  - `updateQuantity` drops a line at quantity 0 and otherwise sets the quantity.
  - The minus, plus and trash buttons.
  - Subtotal, 7.5% VAT and total, with VAT as the exact ratio 75/1000.
  - The empty-cart screen.
- **Inventory** (`inventory.dfy`, module `Inventory`).
  - The search box and category buttons.
  - The category list: "all" followed by the distinct categories in first-appearance order.
  - Low-stock alerts, the total stock value and the reorder button.
- **Staff screens** (`staff_common.dfy`, `staff_payments.dfy`, `staff_orders.dfy`, `staff_tables.dfy`).
  - Search on bills and orders ignores case on the order number and the customer name, and matches the table number's numeral exactly as typed.
  - Status buttons have an "all" entry.
  - Sums and counts by status.
  - The buttons each status offers.
- **Order tracking** (`order_tracking.dfy`, module `OrderTracking`).
  - A stage counter starting at 2 and a minute counter starting at 12. A timer advances them by one stage and minus five minutes until stage 3.
  - The heading, badge, banner and three-stage timeline derived from them.
  - The two state cells are class `OrderTracker`.

Shared modules:

- `Seqs` models `Array.prototype.filter`, a summing `reduce`, and `Array.from(new Set(...))`.
- `Text` models ASCII `toLowerCase`, `includes` and `toString` on integers below 10^21 in magnitude.
- `Wrappers` provides `Option`.

What the model brings out:

- The kitchen tabs are a true partition, and an order with no items is shown as completed.
- The cart's total is exactly 43/40 of its subtotal.
- On the tracking screen the order reads "Ready for Pickup", and its banner shows, while the heading still says "7 min remaining". The heading can never say "Ready!" (`OrderTracking.ReadyWhileMinutesRemain`).
- A split bill, or a served order, is listed only under "all", because no status button selects it.
- A table search containing anything but digits and a minus sign shows no table (for integer table numbers below 10^21).

## Model

| member | source | states |
|---|---|---|
| Kitchen.ItemStatusUpdated | app/kitchen/page.tsx:108-119 | the updater keeps the number of orders, each order's id, and the number of items of each order |
| Kitchen.UpdateItemStatusEffect | app/kitchen/page.tsx:108-119 | only the items with the given id, inside the orders with the given id, change, and only in their status; every other order, item and field is unchanged |
| Kitchen.UpdateUnknownIsNoop | app/kitchen/page.tsx:110-116 | an order id or item id that matches no item leaves the whole collection unchanged |
| Kitchen.OrderMarkedComplete | app/kitchen/page.tsx:121-132 | the updater keeps the number of orders, their ids and their item counts |
| Kitchen.MarkOrderCompleteEffect | app/kitchen/page.tsx:121-132 | every item of the marked order becomes ready and nothing else about it changes; every other order is unchanged |
| Kitchen.MarkOrderCompleteIdempotent | app/kitchen/page.tsx:121-132 | marking an order complete twice equals marking it once |
| Kitchen.ActiveCompletedPartition | app/kitchen/page.tsx:134-136 | active and completed orders split the collection: lengths and multisets add up, each order is in exactly one tab, and an order without items is completed |
| Kitchen.MarkOrderCompleteRoutesToCompleted | app/kitchen/page.tsx:121-136 | after marking, the order is in the completed tab and not in the active tab |
| Kitchen.CountdownTicked | app/kitchen/page.tsx:97-102 | one tick keeps the number of orders |
| Kitchen.CountdownTickedAt | app/kitchen/page.tsx:97-102 | a tick maps each time t to max(0, t-1): never negative, never above a non-negative t, 0 stays 0, and no other field changes |
| Kitchen.CountdownTickedTimes | app/kitchen/page.tsx:93-103 | repeated ticks keep the number of orders |
| Kitchen.CountdownAfterMinutes | app/kitchen/page.tsx:93-103 | after n ticks a non-negative time t reads max(0, t-n) |
| Kitchen.CountdownKeepsTabs | app/kitchen/page.tsx:97-136 | the countdown never changes how many orders are in each tab |
| Kitchen.AverageTimeLeft | app/kitchen/page.tsx:228-231 | the average divides by max(active count, 1); it is 0 when no order is active and never negative for non-negative times |
| Kitchen.AverageTimeLeftAtMost | app/kitchen/page.tsx:228-231 | with every time in [0, m], the average lies in [0, m] |
| Kitchen.UrgentCount | app/kitchen/page.tsx:244 | the urgent count never exceeds the number of active orders |
| Kitchen.ReadyItemCount | app/kitchen/page.tsx:371 | in "x of n items ready", x ≤ n |
| Kitchen.ReadyItemCountFull | app/kitchen/page.tsx:353-371 | x = n exactly when every item is ready, so x < n whenever "Mark All Items Ready" is shown |
| Kitchen.HasUrgentItemsIsActiveUrgent | app/kitchen/page.tsx:266 | an order highlighted as urgent is active and urgent, so it is among the urgent count |
| Kitchen.ItemActionIsForwardStep | app/kitchen/page.tsx:322-345 | the item buttons offer only pending→preparing and preparing→ready; a ready item has no button |
| Kitchen.PressItemButton | app/kitchen/page.tsx:322-339 | with unique ids, pressing an item's button moves that item one step forward and leaves every other item of every order unchanged |
| Kitchen.KitchenDisplay.constructor | app/kitchen/page.tsx:88 | the state starts as the seed orders, whose times are not negative |
| Kitchen.KitchenDisplay.UpdateItemStatus | app/kitchen/page.tsx:108-119 | the new state is the updater applied to the old state, and no time becomes negative |
| Kitchen.KitchenDisplay.MarkOrderComplete | app/kitchen/page.tsx:121-132 | the new state is the updater applied to the old state, and no time becomes negative |
| Kitchen.KitchenDisplay.Tick | app/kitchen/page.tsx:97-102 | the new state is the countdown applied to the old state, and every time is non-negative afterwards |
| Menu.CategoryTabsDistinct | app/menu/page.tsx:83 | no tab repeats, and only the first tab is "All" |
| Menu.CategoryTabsSpec | app/menu/page.tsx:83-92 | the first tab lists the whole menu; every other tab lists exactly the menu items of its own category |
| Menu.FilteredItemsSpec | app/menu/page.tsx:89-92 | "All" gives the whole menu in order; any other tab gives exactly that category's items, with their multiplicities, in menu order |
| Menu.AddedToCartSpec | app/menu/page.tsx:94-99 | add raises the item's count by one, counting a missing key as 0, and leaves every other key alone |
| Menu.RemovedFromCartSpec | app/menu/page.tsx:101-111 | remove lowers a count above 1, deletes a count of 1, leaves a missing key unchanged, and leaves every other key alone |
| Menu.AddThenRemoveRoundTrip | app/menu/page.tsx:94-111 | on a valid cart, remove after add restores the cart |
| Menu.UpdatersKeepCartValid | app/menu/page.tsx:94-111 | both updaters keep every stored count ≥ 1 |
| Menu.ClicksKeepCartValid | app/menu/page.tsx:94-111 | any sequence of add and remove clicks keeps every count ≥ 1 |
| Menu.EmptyCartStaysValid | app/menu/page.tsx:87-111 | starting from `{}`, every count stays ≥ 1 whatever the clicks |
| Menu.SumOverPick | app/menu/page.tsx:113-116 | the sum of the counts may start from any key |
| Menu.SumOverAgree | app/menu/page.tsx:113-116 | carts that agree on a set of keys have the same sum over them |
| Menu.ItemsCountOfValidCart | app/menu/page.tsx:113-116 | in a valid cart, the counts over any set of keys sum to at least the number of keys |
| Menu.ItemsCountPositive | app/menu/page.tsx:113-116 | the badge count is at least the number of distinct items, and zero only for the empty cart |
| Menu.AddRaisesCountByOne | app/menu/page.tsx:94-116 | add raises the badge count by exactly one |
| Menu.RemoveLowersCountByOne | app/menu/page.tsx:101-116 | remove lowers the badge count by one exactly when the item was in the cart |
| Menu.QuantityControlsShownForCartItems | app/menu/page.tsx:205 | on a valid cart, the minus button and the count are shown exactly for items in the cart |
| Menu.MenuCart.constructor | app/menu/page.tsx:87 | the cart starts empty |
| Menu.MenuCart.AddToCart | app/menu/page.tsx:94-99 | the new cart is the add updater applied to the old one; it stays valid and its count rises by one |
| Menu.MenuCart.RemoveFromCart | app/menu/page.tsx:101-111 | the copy-then-change update equals the remove updater; the cart stays valid and its count drops by one exactly when the key was present |
| CartPage.UpdateQuantityZeroRemoves | app/cart/page.tsx:34-36 | quantity 0 removes exactly the lines with that id and keeps the rest in order, so the length drops by the number of such lines |
| CartPage.UpdateQuantitySets | app/cart/page.tsx:37-42 | any other quantity sets the matching lines' quantity and keeps the length, the order and every other field |
| CartPage.UpdateUnknownIdIsNoop | app/cart/page.tsx:34-43 | an id that no line has leaves the list unchanged |
| CartPage.WithQuantity | app/cart/page.tsx:38-42 | the `map` keeps the number of lines |
| CartPage.WithQuantityAt | app/cart/page.tsx:38-42 | a line gets the new quantity exactly when its id matches; the others are unchanged |
| CartPage.PressKeepsQuantitiesPositive | app/cart/page.tsx:127-146 | through the minus, plus and trash buttons every quantity stays ≥ 1 |
| CartPage.MinusOnOneRemovesLine | app/cart/page.tsx:127 | minus on a quantity of 1 removes the line |
| CartPage.Subtotal | app/cart/page.tsx:46-49 | the subtotal is not negative for non-negative prices and quantities |
| CartPage.RemoveLineLowersSubtotal | app/cart/page.tsx:46-49 | removing a line whose id is unique lowers the subtotal by that line's price×quantity |
| CartPage.TotalIsSubtotalWithVat | app/cart/page.tsx:50-51 | 40·total = 43·subtotal and 40·tax = 3·subtotal; neither is negative, and the total is at least the subtotal, for a non-negative subtotal |
| CartPage.SampleCartTotals | app/cart/page.tsx:11-51 | the seed cart gives subtotal 6800, tax 510 and total 7310 |
| CartPage.TrashLastLineEmptiesCart | app/cart/page.tsx:53 | trashing the only line brings up the empty-cart screen, with nothing to pay |
| Inventory.FilteredItemsSpec | app/manager/inventory/page.tsx:107-111 | the list holds, in order, exactly the items whose lower-cased name contains the lower-cased term and whose category passes the filter, each as often as in the stock list, and never more items than there are |
| Inventory.EmptySearchShowsAll | app/manager/inventory/page.tsx:107-111 | an empty search with "all" shows every item |
| Inventory.SearchIgnoresCase | app/manager/inventory/page.tsx:108 | a search term and its lower-cased form list the same items |
| Inventory.CategoryColumn | app/manager/inventory/page.tsx:139 | the mapped column has one category per item, in order |
| Inventory.CategoryColumnMembers | app/manager/inventory/page.tsx:139 | a string is in the column exactly when some item has it as its category |
| Inventory.CategoriesSpec | app/manager/inventory/page.tsx:139 | the list starts with "all"; after it, every category of the stock appears exactly once and nothing else does |
| Inventory.CategoriesOrder | app/manager/inventory/page.tsx:139 | the buttons after "all" are in first-appearance order |
| Inventory.CategoryCountIsDistinctCategories | app/manager/inventory/page.tsx:264 | `categories.length - 1` is the number of distinct categories |
| Inventory.CategoriesDistinct | app/manager/inventory/page.tsx:284-292 | when no category is literally "all", no button appears twice |
| Inventory.LowStockItemsAreReorderable | app/manager/inventory/page.tsx:379 | the low-stock alerts are, in order and with their multiplicities, exactly the items with a Reorder button (status not in-stock) |
| Inventory.AlertsAndInStockPartition | app/manager/inventory/page.tsx:140 | the alerts and the in-stock items split the list: their counts add up to the number of items and their multisets to the list's multiset |
| Inventory.TotalValue | app/manager/inventory/page.tsx:141 | the total stock value is not negative for non-negative stock and unit costs |
| Inventory.OutOfStockAddsNothing | app/manager/inventory/page.tsx:141 | out-of-stock items with zero stock add nothing to the total value |
| StaffCommon.EmptySearchMatches | app/staff/payments/page.tsx:75-79 | an empty search term matches every bill or order |
| StaffCommon.OwnFieldsMatch | app/staff/orders/page.tsx:73-76 | typing an entry's own order number, customer name (in either case) or table number finds it |
| StaffCommon.NumeralSearchNeedsDigits | app/staff/page.tsx:36 | a term found in a table number's numeral consists of digits and minus signs only |
| StaffCommon.LineAmount | app/staff/payments/page.tsx:312 | the line amount (quantity×price) is not negative for non-negative inputs and is the price for a single item |
| StaffPayments.StatusNameInjective | app/staff/payments/page.tsx:19 | distinct statuses have distinct names, none of them "all" |
| StaffPayments.FilteredPaymentsSpec | app/staff/payments/page.tsx:75-82 | the list holds, in order and each as often as in the bills, exactly the bills that match the search and the status filter |
| StaffPayments.StatusButtonSelects | app/staff/payments/page.tsx:75-82 | an empty search with "all" lists every bill; with a status it lists exactly the bills with that status |
| StaffPayments.UnknownStatusListsNothing | app/staff/payments/page.tsx:80 | a filter naming no status lists nothing |
| StaffPayments.SplitBillsOnlyUnderAll | app/staff/payments/page.tsx:228-243 | with the offered buttons, a split bill is listed only under "all" |
| StaffPayments.TotalsCoverAllBills | app/staff/payments/page.tsx:123-124 | the pending total, the paid total and the split bills' amounts add up to the amount of all bills |
| StaffPayments.ActiveBillsCount | app/staff/payments/page.tsx:205 | active bills = total − paid = pending + split |
| StaffPayments.TotalsBounded | app/staff/payments/page.tsx:123-124 | with non-negative amounts, each total lies between 0 and the amount of all bills |
| StaffPayments.BillButtonsSpec | app/staff/payments/page.tsx:292-343 | every bill offers "View Bill Details"; Process Payment and Split Bill appear exactly when pending, Print Receipt exactly when paid, Manage Split exactly when split; statuses share no action |
| StaffOrders.StatusNameInjective | app/staff/orders/page.tsx:17 | distinct statuses have distinct names, none of them "all" |
| StaffOrders.FilteredOrdersSpec | app/staff/orders/page.tsx:72-79 | the list holds, in order and each as often as in the orders, exactly the orders that match the search and the status filter |
| StaffOrders.StatusButtonSelects | app/staff/orders/page.tsx:72-79 | an empty search with "all" lists every order; with a status it lists exactly the orders with that status |
| StaffOrders.ServedOnlyUnderAll | app/staff/orders/page.tsx:198-221 | with the offered buttons, a served order is listed only under "all" |
| StaffOrders.CountsAddUp | app/staff/orders/page.tsx:156-177 | the four status counts sum to the number of orders |
| StaffOrders.OrderButtonsSpec | app/staff/orders/page.tsx:280-289 | every order ends with View Details; a served order has only that; each other status has exactly its own action |
| StaffTables.StatusNameInjective | app/staff/page.tsx:14 | distinct statuses have distinct names, none of them "all" |
| StaffTables.FilteredTablesSpec | app/staff/page.tsx:35-39 | the cards are, in order and each as often as in the tables, exactly the tables whose numeral contains the term and whose status passes the filter |
| StaffTables.EmptySearchShowsAll | app/staff/page.tsx:35-39 | an empty search with "all" shows every table |
| Text.IntToStringInjective | app/staff/page.tsx:36 | distinct table numbers have distinct numerals, and equal numerals mean equal numbers |
| StaffTables.OwnNumberFindsTable | app/staff/page.tsx:35-39 | typing a table's number shows it under "all" and under its own status |
| StaffTables.NonNumericSearchShowsNothing | app/staff/page.tsx:36 | a term with a character other than a digit or minus shows no table |
| StaffTables.OccupiedTables | app/staff/page.tsx:67 | the occupied count is at most the number of tables, and equal to it exactly when all tables are occupied |
| StaffTables.OccupiedCountFull | app/staff/page.tsx:67 | the filter keeps every table exactly when every table is occupied |
| StaffTables.TotalRevenue | app/staff/page.tsx:68 | the revenue is not negative for non-negative order values |
| StaffTables.RevenueFromOccupiedTables | app/staff/page.tsx:68 | when only occupied tables carry order value, the revenue is the occupied tables' sum |
| StaffTables.TableButtonsSpec | app/staff/page.tsx:211-253 | every card has a button; Assign Table exactly when available, Mark as Clean exactly when cleaning is needed, and View Details and Process Payment exactly when the occupancy details show |
| OrderTracking.StepSpec | app/order-tracking/page.tsx:24-29 | the step never lowers the stage and raises it by at most one; from stage 3 on it changes nothing; below 3 it adds one stage and subtracts 5 minutes |
| OrderTracking.StepsStayInRange | app/order-tracking/page.tsx:17-29 | starting in [2, 3], the stage stays in [2, 3] and never decreases |
| OrderTracking.FinalIsFixedPoint | app/order-tracking/page.tsx:25 | stage 3 is a fixed point of any number of steps |
| OrderTracking.ReachableStates | app/order-tracking/page.tsx:17-29 | from (2, 12) the only states are (2, 12) and, after any firing, (3, 7) |
| OrderTracking.HeadingTextSpec | app/order-tracking/page.tsx:62 | the heading is "Ready!" exactly when the minutes are ≤ 0; otherwise it starts with the minutes' numeral |
| OrderTracking.BadgeAgreesWithBanner | app/order-tracking/page.tsx:66-135 | the badge reads "Ready for Pickup" exactly when the banner shows, exactly at stage 3 |
| OrderTracking.ReadyWhileMinutesRemain | app/order-tracking/page.tsx:24-135 | after the first firing the banner shows while the heading reads "7 min remaining", and the heading never says "Ready!" |
| OrderTracking.StageFlagsSpec | app/order-tracking/page.tsx:80-102 | the current stage is also completed; the "Completed" label marks the completed stages other than the current one |
| OrderTracking.Timeline | app/order-tracking/page.tsx:79-104 | one view per stage in stage order; the ticked stages form a prefix; at most one stage is in progress, it is ticked and no later stage is; "Completed" marks exactly the other ticked stages; stage number currentStatus is the one in progress |
| OrderTracking.TickedPrefixCount | app/order-tracking/page.tsx:80 | among the first n stages, max(0, min(status, n)) are completed |
| OrderTracking.TickedStageCount | app/order-tracking/page.tsx:79-81 | for a non-negative status, exactly min(status, 3) stages are completed, and at most one is current |
| OrderTracking.OrderTracker.constructor | app/order-tracking/page.tsx:17-18 | the cells start at stage 2 with 12 minutes |
| OrderTracking.OrderTracker.Advance | app/order-tracking/page.tsx:24-29 | the new cells are the step applied to the old ones; the stage stays in [2, 3] and never drops |

## Left out

- Timers and clocks are left out: `setInterval`, `setTimeout`, their cleanup, and `new Date()`. Only the step each timer applies is modelled: `KitchenDisplay.Tick` and `OrderTracker.Advance`.
- Randomness is left out. The order number drawn from `Math.random` on the tracking and confirmation screens is not modelled.
- Rounding and locale formatting are left out.
  - VAT is the exact ratio 75/1000, not the float 0.075.
  - The kitchen average is an exact quotient, without `Math.round`.
  - `toLocaleString` currency formatting is not modelled.
- Kitchen.AverageTimeLeft: states the quotient before the `Math.round` the page applies, because rounding a real is not part of this model.
- Lower-casing is ASCII only. Unicode `toLowerCase` is not modelled.
- Number fields (prices, quantities, minutes, amounts, table numbers) are modelled as unbounded integers. Fractions, values beyond 2^53 and the exponent form `toString` uses from 10^21 up are not modelled, so the numeral search facts hold for integer values below 10^21 in magnitude.
- Mock-data consistency is left out, and stored fields are taken as given. This covers:
  - inventory status against stock levels;
  - a bill's amount against its lines;
  - an order's `totalItems` against its items;
  - the hard-coded ₦7,187 on the checkout, confirmation and tracking screens.
- The seed arrays of each page are parameters, not constants. The exception is the sample cart in `CartPage.SampleCartTotals`.
- Markup, colour and label tables, links and dialogs are presentation.
  - This includes the kitchen's "m left" / "Overdue!" label and the inventory status texts. It also covers the bill-details dialog, which only displays `LineAmount` and the stored amount.
  - The menu's "add" button being shown only for available items is presentation too.
- These pages are not part of this model because they hold no logic: app/manager/page.tsx, app/page.tsx, app/profile/page.tsx, app/orders/page.tsx, app/payment-confirmation/page.tsx and app/checkout/page.tsx.
- Kitchen.PressItemButton: requires unique order ids and unique item ids within the order. With duplicate ids, the page's `map` also changes every other item sharing that id. `UpdateItemStatusEffect` states that general case.
- CartPage.RemoveLineLowersSubtotal: requires the removed line's id to be unique, for the same reason.
