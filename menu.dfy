/**
 * The customer menu (app/menu/page.tsx): the category tabs over the menu, and
 * the cart, a dictionary from item id to a count that the plus and minus
 * buttons raise and lower.
 */
module Menu {
  import opened Seqs

  datatype MenuItem = MenuItem(
    id: string,
    name: string,
    description: string,
    price: int,
    image: string,
    category: string,
    available: bool)

  /** The category tabs, in display order. */
  const Categories: seq<string> := ["All", "Starters", "Mains", "Drinks", "Desserts"]

  // ---------------------------------------------------------------------------
  // filteredItems

  /** The items listed under the selected tab: all of them under "All", otherwise those of that category. */
  function FilteredItems(items: seq<MenuItem>, selectedCategory: string): seq<MenuItem> {
    if selectedCategory == "All" then items
    else Filter(items, (item: MenuItem) => item.category == selectedCategory)
  }

  /**
   * Under "All" the list is the whole menu in order; under any other tab it is
   * exactly the items of that category, each as often as on the menu, in menu order.
   */
  lemma FilteredItemsSpec(items: seq<MenuItem>, selectedCategory: string)
    ensures selectedCategory == "All" ==> FilteredItems(items, selectedCategory) == items
    ensures selectedCategory != "All" ==>
      var r := FilteredItems(items, selectedCategory);
      && IsSubsequence(r, items)
      && (forall x :: x in r <==> x in items && x.category == selectedCategory)
      && (forall x :: multiset(r)[x] == if x.category == selectedCategory then multiset(items)[x] else 0)
  {
    if selectedCategory != "All" {
      var p := (item: MenuItem) => item.category == selectedCategory;
      FilterIsSubsequence(items, p);
      forall x {
        FilterMultiset(items, p, x);
      }
    }
  }

  /** No tab appears twice, and only the first is "All". */
  lemma CategoryTabsDistinct()
    ensures NoDuplicates(Categories)
    ensures Categories[0] == "All" && forall k :: 1 <= k < |Categories| ==> Categories[k] != "All"
  {
  }

  /**
   * The tabs: the first, "All", lists the whole menu, and a tab after the
   * first lists exactly the menu items of its own category.
   */
  lemma CategoryTabsSpec(items: seq<MenuItem>, k: int, x: MenuItem)
    requires 1 <= k < |Categories|
    ensures FilteredItems(items, Categories[0]) == items
    ensures x in FilteredItems(items, Categories[k]) <==> x in items && x.category == Categories[k]
  {
    CategoryTabsDistinct();
    var c := Categories[k];
    assert c != "All";
  }

  // ---------------------------------------------------------------------------
  // The cart dictionary

  type Cart = map<string, int>

  /** Every stored count is at least one. */
  predicate ValidCart(cart: Cart) {
    forall id :: id in cart ==> cart[id] >= 1
  }

  /** The updater of `addToCart(itemId)`: the item's count goes up by one, a missing item counting as zero. */
  function AddedToCart(cart: Cart, itemId: string): Cart {
    cart[itemId := (if itemId in cart then cart[itemId] else 0) + 1]
  }

  /**
   * The updater of `removeFromCart(itemId)`: a count above one is lowered;
   * otherwise the key is deleted (a missing key compares as not above one, so
   * deleting it changes nothing).
   */
  function RemovedFromCart(cart: Cart, itemId: string): Cart {
    if itemId in cart && cart[itemId] > 1 then cart[itemId := cart[itemId] - 1] else cart - {itemId}
  }

  /** `addToCart` raises the item's count by one, counting a missing key as zero, and touches no other key. */
  lemma AddedToCartSpec(cart: Cart, itemId: string)
    ensures var c := AddedToCart(cart, itemId);
      && c.Keys == cart.Keys + {itemId}
      && c[itemId] == (if itemId in cart then cart[itemId] + 1 else 1)
      && forall k :: k in cart && k != itemId ==> c[k] == cart[k]
  {
  }

  /**
   * `removeFromCart` lowers a count above one by one, deletes a key whose
   * count is one, leaves the cart unchanged for a missing key, and touches no other key.
   */
  lemma RemovedFromCartSpec(cart: Cart, itemId: string)
    ensures var c := RemovedFromCart(cart, itemId);
      && (itemId !in cart ==> c == cart)
      && (itemId in cart && cart[itemId] > 1 ==> itemId in c && c[itemId] == cart[itemId] - 1)
      && (itemId in cart && cart[itemId] == 1 ==> itemId !in c)
      && (forall k :: k != itemId ==> (k in c <==> k in cart))
      && (forall k :: k in cart && k != itemId ==> c[k] == cart[k])
  {
  }

  /** Adding one and then removing one restores a valid cart. */
  lemma AddThenRemoveRoundTrip(cart: Cart, itemId: string)
    requires ValidCart(cart)
    ensures RemovedFromCart(AddedToCart(cart, itemId), itemId) == cart
  {
    var c := RemovedFromCart(AddedToCart(cart, itemId), itemId);
    assert c.Keys == cart.Keys;
  }

  /** Both updaters keep every stored count at least one. */
  lemma UpdatersKeepCartValid(cart: Cart, itemId: string)
    requires ValidCart(cart)
    ensures ValidCart(AddedToCart(cart, itemId))
    ensures ValidCart(RemovedFromCart(cart, itemId))
  {
  }

  /** A click on a plus or a minus button. */
  datatype CartAction = Add(itemId: string) | Remove(itemId: string)

  function ApplyActions(cart: Cart, actions: seq<CartAction>): Cart
    decreases |actions|
  {
    if actions == [] then cart
    else
      var next := match actions[0]
        case Add(id) => AddedToCart(cart, id)
        case Remove(id) => RemovedFromCart(cart, id);
      ApplyActions(next, actions[1..])
  }

  /** Starting from the empty cart, every count stays at least one whatever the clicks. */
  lemma {:induction false} ClicksKeepCartValid(cart: Cart, actions: seq<CartAction>)
    requires ValidCart(cart)
    ensures ValidCart(ApplyActions(cart, actions))
    decreases |actions|
  {
    if actions != [] {
      UpdatersKeepCartValid(cart, actions[0].itemId);
      var next := match actions[0]
        case Add(id) => AddedToCart(cart, id)
        case Remove(id) => RemovedFromCart(cart, id);
      ClicksKeepCartValid(next, actions[1..]);
    }
  }

  lemma EmptyCartStaysValid(actions: seq<CartAction>)
    ensures ValidCart(ApplyActions(map[], actions))
  {
    ClicksKeepCartValid(map[], actions);
  }

  // ---------------------------------------------------------------------------
  // cartItemsCount

  /** The sum of `cart[k]` over the keys `keys`. */
  ghost function SumOver(cart: Cart, keys: set<string>): int
    requires keys <= cart.Keys
    decreases keys
  {
    if keys == {} then 0
    else
      var k :| k in keys;
      cart[k] + SumOver(cart, keys - {k})
  }

  /** The sum may be taken starting from any key. */
  lemma {:induction false} SumOverPick(cart: Cart, keys: set<string>, k: string)
    requires keys <= cart.Keys && k in keys
    ensures SumOver(cart, keys) == cart[k] + SumOver(cart, keys - {k})
    decreases keys
  {
    var j :| j in keys && SumOver(cart, keys) == cart[j] + SumOver(cart, keys - {j});
    if j != k {
      SumOverPick(cart, keys - {j}, k);
      SumOverPick(cart, keys - {k}, j);
      assert keys - {j} - {k} == keys - {k} - {j};
    }
  }

  /** Two carts that agree on `keys` have the same sum over them. */
  lemma {:induction false} SumOverAgree(a: Cart, b: Cart, keys: set<string>)
    requires keys <= a.Keys && keys <= b.Keys
    requires forall k :: k in keys ==> a[k] == b[k]
    ensures SumOver(a, keys) == SumOver(b, keys)
    decreases keys
  {
    if keys != {} {
      var k :| k in keys && SumOver(a, keys) == a[k] + SumOver(a, keys - {k});
      SumOverPick(b, keys, k);
      SumOverAgree(a, b, keys - {k});
    }
  }

  /** `cartItemsCount`: the sum of the stored counts. */
  ghost function ItemsCount(cart: Cart): int {
    SumOver(cart, cart.Keys)
  }

  /** In a valid cart, the counts of any set of keys add up to at least the number of keys. */
  lemma {:induction false} ItemsCountOfValidCart(cart: Cart, keys: set<string>)
    requires ValidCart(cart) && keys <= cart.Keys
    ensures SumOver(cart, keys) >= |keys|
    decreases keys
  {
    if keys != {} {
      var k :| k in keys && SumOver(cart, keys) == cart[k] + SumOver(cart, keys - {k});
      ItemsCountOfValidCart(cart, keys - {k});
    }
  }

  /** For a valid cart the badge count is at least the number of distinct items, and zero only for the empty cart. */
  lemma ItemsCountPositive(cart: Cart)
    requires ValidCart(cart)
    ensures ItemsCount(cart) >= |cart|
    ensures ItemsCount(cart) == 0 <==> cart == map[]
  {
    ItemsCountOfValidCart(cart, cart.Keys);
    if cart == map[] {
      assert cart.Keys == {};
    } else {
      var k :| k in cart;
      assert k in cart.Keys;
    }
  }

  /** `addToCart` raises the badge count by exactly one. */
  lemma AddRaisesCountByOne(cart: Cart, itemId: string)
    ensures ItemsCount(AddedToCart(cart, itemId)) == ItemsCount(cart) + 1
  {
    var c := AddedToCart(cart, itemId);
    var rest := cart.Keys - {itemId};
    assert c.Keys == rest + {itemId};
    SumOverPick(c, c.Keys, itemId);
    assert c.Keys - {itemId} == rest;
    SumOverAgree(c, cart, rest);
    if itemId in cart {
      SumOverPick(cart, cart.Keys, itemId);
    } else {
      assert cart.Keys == rest;
    }
  }

  /** On a valid cart, `removeFromCart` lowers the badge count by one exactly when the item was in the cart. */
  lemma RemoveLowersCountByOne(cart: Cart, itemId: string)
    requires ValidCart(cart)
    ensures ItemsCount(RemovedFromCart(cart, itemId)) == ItemsCount(cart) - (if itemId in cart then 1 else 0)
  {
    var c := RemovedFromCart(cart, itemId);
    if itemId in cart {
      var rest := cart.Keys - {itemId};
      SumOverPick(cart, cart.Keys, itemId);
      if cart[itemId] > 1 {
        SumOverPick(c, c.Keys, itemId);
        assert c.Keys - {itemId} == rest;
        SumOverAgree(c, cart, rest);
      } else {
        assert c.Keys == rest;
        SumOverAgree(c, cart, rest);
      }
    } else {
      assert c == cart;
    }
  }

  /** The minus button and the count next to it are shown only when `cart[item.id] > 0`, which for a valid cart means the item is in it. */
  predicate ShowsQuantityControls(cart: Cart, itemId: string) {
    itemId in cart && cart[itemId] > 0
  }

  lemma QuantityControlsShownForCartItems(cart: Cart, itemId: string)
    requires ValidCart(cart)
    ensures ShowsQuantityControls(cart, itemId) <==> itemId in cart
  {
  }

  // ---------------------------------------------------------------------------
  // The state cell

  /** The menu page's `cart` state. */
  class MenuCart {
    var cart: Cart

    ghost predicate Valid()
      reads this
    {
      ValidCart(cart)
    }

    constructor ()
      ensures Valid() && cart == map[]
    {
      cart := map[];
    }

    method AddToCart(itemId: string)
      requires Valid()
      modifies this
      ensures Valid()
      ensures cart == AddedToCart(old(cart), itemId)
      ensures ItemsCount(cart) == ItemsCount(old(cart)) + 1
    {
      var count := if itemId in cart then cart[itemId] else 0;
      cart := cart[itemId := count + 1];
      AddRaisesCountByOne(old(cart), itemId);
    }

    /** Copies the dictionary, changes the copy, and stores it. */
    method RemoveFromCart(itemId: string)
      requires Valid()
      modifies this
      ensures Valid()
      ensures cart == RemovedFromCart(old(cart), itemId)
      ensures ItemsCount(cart) == ItemsCount(old(cart)) - (if itemId in old(cart) then 1 else 0)
    {
      var newCart := cart;
      if itemId in newCart && newCart[itemId] > 1 {
        newCart := newCart[itemId := newCart[itemId] - 1];
      } else {
        newCart := newCart - {itemId};
      }
      cart := newCart;
      RemoveLowersCountByOne(old(cart), itemId);
    }
  }
}
