/**
 * The cart page (app/cart/page.tsx): a list of cart lines whose quantities
 * the minus, plus and trash buttons change, and the order summary
 * (subtotal, 7.5% VAT, total).
 */
module CartPage {
  import opened Seqs

  datatype CartLine = CartLine(id: string, name: string, price: int, quantity: int, image: string)

  // ---------------------------------------------------------------------------
  // updateQuantity

  /** The `items.map` branch: every line with id `id` gets quantity `newQuantity`. */
  function WithQuantity(items: seq<CartLine>, id: string, newQuantity: int): (r: seq<CartLine>)
    ensures |r| == |items|
  {
    if items == [] then []
    else
      [if items[0].id == id then items[0].(quantity := newQuantity) else items[0]]
      + WithQuantity(items[1..], id, newQuantity)
  }

  predicate HasOtherId(id: string, line: CartLine) {
    line.id != id
  }

  predicate HasId(id: string, line: CartLine) {
    line.id == id
  }

  /** The new `items` after `updateQuantity(id, newQuantity)`: zero drops the lines with that id, anything else sets their quantity. */
  function UpdateQuantity(items: seq<CartLine>, id: string, newQuantity: int): seq<CartLine> {
    if newQuantity == 0 then Filter(items, (line: CartLine) => HasOtherId(id, line))
    else WithQuantity(items, id, newQuantity)
  }

  lemma {:induction false} WithQuantityAt(items: seq<CartLine>, id: string, newQuantity: int, k: int)
    requires 0 <= k < |items|
    ensures WithQuantity(items, id, newQuantity)[k]
         == if items[k].id == id then items[k].(quantity := newQuantity) else items[k]
  {
    if k > 0 {
      WithQuantityAt(items[1..], id, newQuantity, k - 1);
    }
  }

  /** Quantity zero removes exactly the lines with that id and keeps the others, in order. */
  lemma UpdateQuantityZeroRemoves(items: seq<CartLine>, id: string)
    ensures var r := UpdateQuantity(items, id, 0);
      && IsSubsequence(r, items)
      && (forall line :: line in r <==> line in items && line.id != id)
      && |r| == |items| - |Filter(items, (line: CartLine) => HasId(id, line))|
  {
    var keep := (line: CartLine) => HasOtherId(id, line);
    var drop := (line: CartLine) => HasId(id, line);
    FilterIsSubsequence(items, keep);
    FilterSplit(items, keep, drop);
  }

  /**
   * Any other quantity sets the quantity of the lines with that id and leaves
   * the length, the order, and every id, name, price and image as they were.
   */
  lemma UpdateQuantitySets(items: seq<CartLine>, id: string, newQuantity: int, k: int)
    requires newQuantity != 0 && 0 <= k < |items|
    ensures var r := UpdateQuantity(items, id, newQuantity);
      && |r| == |items|
      && r[k].(quantity := items[k].quantity) == items[k]
      && r[k].quantity == if items[k].id == id then newQuantity else items[k].quantity
  {
    WithQuantityAt(items, id, newQuantity, k);
  }

  /** An id no line has leaves the cart unchanged, whatever the quantity. */
  lemma UpdateUnknownIdIsNoop(items: seq<CartLine>, id: string, newQuantity: int)
    requires forall line :: line in items ==> line.id != id
    ensures UpdateQuantity(items, id, newQuantity) == items
  {
    if newQuantity == 0 {
      FilterAll(items, (line: CartLine) => HasOtherId(id, line));
    } else {
      var r := WithQuantity(items, id, newQuantity);
      forall k | 0 <= k < |items| ensures r[k] == items[k] {
        WithQuantityAt(items, id, newQuantity, k);
        assert items[k] in items;
      }
    }
  }

  // ---------------------------------------------------------------------------
  // The per-line buttons

  datatype QuantityButton = Minus | Plus | Trash

  /** The quantity each button passes: `item.quantity - 1`, `item.quantity + 1`, or `0`. */
  function ButtonQuantity(b: QuantityButton, line: CartLine): int {
    match b
    case Minus => line.quantity - 1
    case Plus => line.quantity + 1
    case Trash => 0
  }

  /** A click on button `b` of the `k`-th line, as rendered. */
  function Press(items: seq<CartLine>, k: int, b: QuantityButton): seq<CartLine>
    requires 0 <= k < |items|
  {
    UpdateQuantity(items, items[k].id, ButtonQuantity(b, items[k]))
  }

  predicate PositiveQuantities(items: seq<CartLine>) {
    forall line :: line in items ==> line.quantity >= 1
  }

  /** Through the buttons every quantity stays at least one: minus on a quantity of one removes the line instead. */
  lemma PressKeepsQuantitiesPositive(items: seq<CartLine>, k: int, b: QuantityButton)
    requires 0 <= k < |items| && PositiveQuantities(items)
    ensures PositiveQuantities(Press(items, k, b))
  {
    var id := items[k].id;
    var q := ButtonQuantity(b, items[k]);
    assert items[k] in items;
    if q != 0 {
      var r := WithQuantity(items, id, q);
      forall line | line in r ensures line.quantity >= 1 {
        var j :| 0 <= j < |r| && r[j] == line;
        WithQuantityAt(items, id, q, j);
        assert items[j] in items;
      }
    }
  }

  /** Minus on a line of quantity one removes every line with that id. */
  lemma MinusOnOneRemovesLine(items: seq<CartLine>, k: int)
    requires 0 <= k < |items| && items[k].quantity == 1
    ensures forall line :: line in Press(items, k, Minus) ==> line.id != items[k].id
  {
  }

  // ---------------------------------------------------------------------------
  // The order summary

  function LineTotal(line: CartLine): int {
    line.price * line.quantity
  }

  /** `subtotal`: the sum of price times quantity over the lines. */
  function Subtotal(items: seq<CartLine>): (s: int)
    ensures (forall line :: line in items ==> line.price >= 0 && line.quantity >= 0) ==> s >= 0
  {
    Sum(items, LineTotal)
  }

  /** The 7.5% VAT, as the exact ratio 75/1000. */
  function Tax(subtotal: int): real {
    (subtotal as real) * 75.0 / 1000.0
  }

  function Total(subtotal: int): real {
    (subtotal as real) + Tax(subtotal)
  }

  /** The total is 43/40 of the subtotal and the tax 3/40 of it. */
  lemma TotalIsSubtotalWithVat(subtotal: int)
    ensures 40.0 * Total(subtotal) == 43.0 * (subtotal as real)
    ensures 40.0 * Tax(subtotal) == 3.0 * (subtotal as real)
    ensures subtotal >= 0 ==> Tax(subtotal) >= 0.0 && Total(subtotal) >= subtotal as real
  {
  }

  /** Two jollof rice at 2500 and one pepper soup at 1800: 6800, then 510 VAT, 7310 in all. */
  lemma SampleCartTotals()
    ensures var items := [CartLine("1", "Jollof Rice", 2500, 2, ""), CartLine("2", "Pepper Soup", 1800, 1, "")];
      Subtotal(items) == 6800 && Tax(Subtotal(items)) == 510.0 && Total(Subtotal(items)) == 7310.0
  {
    var items := [CartLine("1", "Jollof Rice", 2500, 2, ""), CartLine("2", "Pepper Soup", 1800, 1, "")];
    assert items[1..][1..] == [];
  }

  /** Removing a line whose id no other line shares lowers the subtotal by that line's price times quantity. */
  lemma RemoveLineLowersSubtotal(items: seq<CartLine>, k: int)
    requires 0 <= k < |items|
    requires forall j :: 0 <= j < |items| && j != k ==> items[j].id != items[k].id
    ensures Subtotal(UpdateQuantity(items, items[k].id, 0)) == Subtotal(items) - LineTotal(items[k])
  {
    var id := items[k].id;
    var keep := (line: CartLine) => HasOtherId(id, line);
    var drop := (line: CartLine) => HasId(id, line);
    SumSplit(items, LineTotal, keep, drop);
    FilterSingle(items, drop, k);
    assert Sum([items[k]], LineTotal) == LineTotal(items[k]);
  }

  /** The page renders the empty-cart screen exactly when no line is left. */
  predicate ShowsEmptyCart(items: seq<CartLine>) {
    |items| == 0
  }

  /** The trash button on the only line brings up the empty-cart screen, with nothing to pay. */
  lemma TrashLastLineEmptiesCart(items: seq<CartLine>)
    requires |items| == 1
    ensures ShowsEmptyCart(Press(items, 0, Trash))
    ensures Subtotal(Press(items, 0, Trash)) == 0 && Total(Subtotal(Press(items, 0, Trash))) == 0.0
  {
    assert items[0] in items;
  }
}
