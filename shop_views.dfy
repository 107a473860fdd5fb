/**
 * The storefront's request handlers that change state: adding to, updating, removing from and
 * clearing a cart, merging a guest cart at login or signup, checking out, toggling a wishlist
 * entry and submitting a review; plus the length guard of the live search.
 *
 * Each cart handler is specified by a function on the cart's lines (`AddEdit`, `UpdateEdit`,
 * `RemoveEdit`, `Merge`), and the lemmas beside those functions state what the handlers promise.
 */
module ShopViews {
  import opened Wrappers
  import opened ShopModels
  import Text

  /** Why a cart handler answers with `success: False`. */
  datatype Refusal =
    | ProductNotFound   // no available product with that id (Http404, answered with status 400)
    | ItemNotFound      // no line with that id in the caller's cart (Http404, status 400)
    | NotEnoughStock    // "Only N items available in stock"
    | ExceedsStock      // "Total would exceed available stock"
    | QuantityBelowOne  // "Quantity must be at least 1"
    | IntegrityError    // a negative quantity violates the column's CHECK (quantity >= 0); status 400

  /** What a cart handler does to the cart's lines. */
  datatype Edit = Accepted(items: seq<CartItem>) | Rejected(reason: Refusal)

  /** The JSON reply of a cart handler: the new item count and total, or the refusal. */
  datatype CartReply = Updated(cartCount: nat, cartTotal: int) | Refused(reason: Refusal)

  /** The position of the line for `p`, if the cart has one. */
  function Find(items: seq<CartItem>, p: Product): (r: Option<nat>)
    ensures r.Some? ==> r.value < |items| && items[r.value].product == p
    ensures r.None? <==> !InCart(items, p)
  {
    if items == [] then None
    else if items[0].product == p then Some(0)
    else
      match Find(items[1..], p)
      case None =>
        assert !InCart(items, p) by {
          forall i | 0 <= i < |items| ensures items[i].product != p {
            if i > 0 { assert items[i] == items[1..][i - 1]; }
          }
        }
        None
      case Some(k) => Some(k + 1)
  }

  // ---------------------------------------------------------------------------------------------
  // Three ways of changing the lines, and what each does to the quantities.

  /** Overwriting the quantity of line `i` changes that product's quantity only. */
  lemma SetLine(items: seq<CartItem>, i: nat, q: nat)
    requires Distinct(items) && i < |items|
    ensures var r := items[i := CartItem(items[i].product, q)];
      && Distinct(r)
      && QuantityOf(r, items[i].product) == q
      && (forall o :: o != items[i].product ==> QuantityOf(r, o) == QuantityOf(items, o))
      && (forall o :: InCart(r, o) <==> InCart(items, o))
  {
    var r := items[i := CartItem(items[i].product, q)];
    assert forall k :: 0 <= k < |r| ==> r[k].product == items[k].product;
    QuantityOfAt(r, i);
    forall o | o != items[i].product
      ensures QuantityOf(r, o) == QuantityOf(items, o)
    {
      SetLineOthers(items, i, q, o);
    }
    forall o ensures InCart(r, o) <==> InCart(items, o) {
      if InCart(items, o) {
        var k :| 0 <= k < |items| && items[k].product == o;
        assert r[k].product == o;
      }
    }
  }

  lemma SetLineOthers(items: seq<CartItem>, i: nat, q: nat, o: Product)
    requires i < |items| && o != items[i].product
    ensures QuantityOf(items[i := CartItem(items[i].product, q)], o) == QuantityOf(items, o)
  {
    var r := items[i := CartItem(items[i].product, q)];
    var before, rest := items[..i], items[i + 1..];
    assert items == before + [items[i]] + rest;
    assert r == before + [r[i]] + rest;
    QuantityOfSplice(before, items[i], rest, o);
    QuantityOfSplice(before, r[i], rest, o);
  }

  /** Adding a line for a product the cart does not hold yet. */
  lemma PrependLine(items: seq<CartItem>, line: CartItem)
    requires Distinct(items) && !InCart(items, line.product)
    ensures var r := [line] + items;
      && Distinct(r)
      && (forall o :: QuantityOf(r, o) == QuantityOf(items, o) + (if o == line.product then line.quantity else 0))
      && (forall o :: InCart(r, o) <==> o == line.product || InCart(items, o))
  {
    var r := [line] + items;
    forall i, j | 0 <= i < j < |r| ensures r[i].product != r[j].product {
      if i > 0 {
        assert r[i] == items[i - 1];
      }
      assert r[j] == items[j - 1];
    }
    forall o ensures QuantityOf(r, o) == QuantityOf(items, o) + (if o == line.product then line.quantity else 0) {
      QuantityOfAppend([line], items, o);
      assert [line] == [] + [line];
    }
    forall o ensures InCart(r, o) <==> o == line.product || InCart(items, o) {
      if InCart(r, o) && o != line.product {
        var k :| 0 <= k < |r| && r[k].product == o;
        assert items[k - 1].product == o;
      }
      if InCart(items, o) {
        var k :| 0 <= k < |items| && items[k].product == o;
        assert r[k + 1].product == o;
      }
      if o == line.product {
        assert r[0].product == o;
      }
    }
  }

  /** Deleting line `i`. */
  lemma DeleteLine(items: seq<CartItem>, i: nat)
    requires Distinct(items) && i < |items|
    ensures var r := items[..i] + items[i + 1..];
      && Distinct(r)
      && !InCart(r, items[i].product)
      && (forall o :: o != items[i].product ==> QuantityOf(r, o) == QuantityOf(items, o))
      && (forall o :: o != items[i].product ==> (InCart(r, o) <==> InCart(items, o)))
  {
    var p := items[i].product;
    var r := items[..i] + items[i + 1..];
    assert forall k :: 0 <= k < |r| ==> r[k] == if k < i then items[k] else items[k + 1];
    forall j, k | 0 <= j < k < |r| ensures r[j].product != r[k].product {
      var j', k' := if j < i then j else j + 1, if k < i then k else k + 1;
      assert r[j] == items[j'] && r[k] == items[k'];
    }
    forall o | o != p ensures QuantityOf(r, o) == QuantityOf(items, o) {
      DeleteLineOthers(items, i, o);
    }
    forall o | o != p ensures InCart(r, o) <==> InCart(items, o) {
      if InCart(items, o) {
        var k :| 0 <= k < |items| && items[k].product == o;
        if k < i { assert r[k] == items[k]; } else { assert r[k - 1] == items[k]; }
      }
    }
  }

  lemma DeleteLineOthers(items: seq<CartItem>, i: nat, o: Product)
    requires i < |items| && o != items[i].product
    ensures QuantityOf(items[..i] + items[i + 1..], o) == QuantityOf(items, o)
  {
    var before, rest := items[..i], items[i + 1..];
    assert items == before + [items[i]] + rest;
    QuantityOfSplice(before, items[i], rest, o);
    QuantityOfAppend(before, rest, o);
  }

  // ---------------------------------------------------------------------------------------------
  // add_to_cart

  /**
   * `add_to_cart` on the lines of the caller's cart: the product must be available, `quantity`
   * must not exceed its stock, and the line's new quantity must stay within the stock; a new line
   * is created with `quantity` itself. The request's quantity is not checked to be positive.
   */
  function AddEdit(items: seq<CartItem>, p: Product, available: bool, stock: nat, quantity: int): Edit
  {
    if !available then Rejected(ProductNotFound)
    else if stock < quantity then Rejected(NotEnoughStock)
    else
      match Find(items, p)
      case None =>
        if quantity < 0 then Rejected(IntegrityError) else Accepted([CartItem(p, quantity)] + items)
      case Some(i) =>
        var newQuantity := items[i].quantity + quantity;
        if newQuantity > stock then Rejected(ExceedsStock)
        else if newQuantity < 0 then Rejected(IntegrityError)
        else Accepted(items[i := CartItem(p, newQuantity)])
  }

  /**
   * Adding succeeds exactly when the product is available, the request is within stock and the
   * product's resulting quantity lies in [0, stock]; the product's quantity then grows by the
   * request, no other product's line changes, and the lines stay one per product.
   */
  lemma AddEditSpec(items: seq<CartItem>, p: Product, available: bool, stock: nat, quantity: int)
    requires Distinct(items)
    ensures var e := AddEdit(items, p, available, stock, quantity);
      && (e.Accepted? <==> available && quantity <= stock && 0 <= QuantityOf(items, p) + quantity <= stock)
      && (e.Accepted? ==>
            && Distinct(e.items)
            && InCart(e.items, p)
            && QuantityOf(e.items, p) == QuantityOf(items, p) + quantity <= stock
            && (forall o :: o != p ==> QuantityOf(e.items, o) == QuantityOf(items, o))
            && (forall o :: o != p ==> (InCart(e.items, o) <==> InCart(items, o))))
  {
    match Find(items, p)
    case None =>
      QuantityOfAbsent(items, p);
      if available && stock >= quantity >= 0 {
        PrependLine(items, CartItem(p, quantity));
      }
    case Some(i) =>
      QuantityOfAt(items, i);
      var newQuantity := items[i].quantity + quantity;
      if available && stock >= quantity && 0 <= newQuantity <= stock {
        SetLine(items, i, newQuantity);
      }
  }

  /** A product is in stock exactly when one unit of it can be added to a cart that does not hold it. */
  lemma InStockIffOneUnitAddable(items: seq<CartItem>, p: Product)
    requires Distinct(items) && !InCart(items, p) && p.available
    ensures p.IsInStock() <==> AddEdit(items, p, p.available, p.stock, 1).Accepted?
  {
    AddEditSpec(items, p, p.available, p.stock, 1);
    QuantityOfAbsent(items, p);
  }

  /** The reply a handler gives once the cart's lines are settled. */
  method Reply(cart: Cart) returns (reply: CartReply)
    ensures reply == Updated(SumQuantities(cart.items), CostOf(cart.items))
  {
    var total := cart.TotalCost();
    reply := Updated(SumQuantities(cart.items), total);
  }

  /** `add_to_cart`. */
  method AddToCart(cart: Cart, product: Product, quantity: int) returns (reply: CartReply)
    requires cart.Valid()
    modifies cart
    ensures cart.Valid()
    ensures var e := AddEdit(old(cart.items), product, product.available, product.stock, quantity);
      && (e.Accepted? ==> cart.items == e.items && reply == Updated(SumQuantities(cart.items), CostOf(cart.items)))
      && (e.Rejected? ==> cart.items == old(cart.items) && reply == Refused(e.reason))
  {
    AddEditSpec(cart.items, product, product.available, product.stock, quantity);
    if !product.available {
      return Refused(ProductNotFound);
    }
    if product.stock < quantity {
      return Refused(NotEnoughStock);
    }
    var k := Find(cart.items, product);
    if k.None? {
      if quantity < 0 {
        return Refused(IntegrityError);
      }
      cart.items := [CartItem(product, quantity)] + cart.items;
    } else {
      var newQuantity := cart.items[k.value].quantity + quantity;
      if newQuantity > product.stock {
        return Refused(ExceedsStock);
      }
      if newQuantity < 0 {
        return Refused(IntegrityError);
      }
      cart.items := cart.items[k.value := CartItem(product, newQuantity)];
    }
    reply := Reply(cart);
  }

  // ---------------------------------------------------------------------------------------------
  // update_cart_quantity

  /** `update_cart_quantity`: the quantity must be at least 1, the line must exist, and the quantity must not exceed the stock. */
  function UpdateEdit(items: seq<CartItem>, p: Product, stock: nat, quantity: int): Edit
  {
    if quantity < 1 then Rejected(QuantityBelowOne)
    else
      match Find(items, p)
      case None => Rejected(ItemNotFound)
      case Some(i) =>
        if quantity > stock then Rejected(NotEnoughStock)
        else Accepted(items[i := CartItem(p, quantity)])
  }

  /**
   * Updating succeeds exactly when 1 <= quantity <= stock and the cart has a line for the product;
   * that line then holds exactly `quantity` and every other line is left as it was.
   */
  lemma UpdateEditSpec(items: seq<CartItem>, p: Product, stock: nat, quantity: int)
    requires Distinct(items)
    ensures var e := UpdateEdit(items, p, stock, quantity);
      && (e.Accepted? <==> 1 <= quantity <= stock && InCart(items, p))
      && (e.Rejected? && quantity < 1 ==> e.reason == QuantityBelowOne)
      && (e.Accepted? ==>
            && Distinct(e.items)
            && QuantityOf(e.items, p) == quantity
            && |e.items| == |items|
            && (forall i :: 0 <= i < |items| && items[i].product != p ==> e.items[i] == items[i])
            && (forall o :: o != p ==> QuantityOf(e.items, o) == QuantityOf(items, o))
            && (forall o :: InCart(e.items, o) <==> InCart(items, o)))
  {
    if quantity >= 1 {
      match Find(items, p)
      case None =>
      case Some(i) =>
        if quantity <= stock {
          SetLine(items, i, quantity);
        }
    }
  }

  /** `update_cart_quantity`; the stock consulted is that of the line's own product. */
  method UpdateCartQuantity(cart: Cart, product: Product, quantity: int) returns (reply: CartReply)
    requires cart.Valid()
    modifies cart
    ensures cart.Valid()
    ensures var e := UpdateEdit(old(cart.items), product, product.stock, quantity);
      && (e.Accepted? ==> cart.items == e.items && reply == Updated(SumQuantities(cart.items), CostOf(cart.items)))
      && (e.Rejected? ==> cart.items == old(cart.items) && reply == Refused(e.reason))
  {
    UpdateEditSpec(cart.items, product, product.stock, quantity);
    if quantity < 1 {
      return Refused(QuantityBelowOne);
    }
    var k := Find(cart.items, product);
    if k.None? {
      return Refused(ItemNotFound);
    }
    if quantity > cart.items[k.value].product.stock {
      return Refused(NotEnoughStock);
    }
    cart.items := cart.items[k.value := CartItem(product, quantity)];
    reply := Reply(cart);
  }

  // ---------------------------------------------------------------------------------------------
  // remove_from_cart and clear_cart

  /** `remove_from_cart`: deletes the caller's line for the product, if there is one. */
  function RemoveEdit(items: seq<CartItem>, p: Product): Edit
  {
    match Find(items, p)
    case None => Rejected(ItemNotFound)
    case Some(i) => Accepted(items[..i] + items[i + 1..])
  }

  /** Removing succeeds exactly when the cart holds the product; afterwards it does not, and nothing else changed. */
  lemma RemoveEditSpec(items: seq<CartItem>, p: Product)
    requires Distinct(items)
    ensures var e := RemoveEdit(items, p);
      && (e.Accepted? <==> InCart(items, p))
      && (e.Accepted? ==>
            && Distinct(e.items)
            && !InCart(e.items, p)
            && SumQuantities(e.items) + QuantityOf(items, p) == SumQuantities(items)
            && (forall o :: o != p ==> QuantityOf(e.items, o) == QuantityOf(items, o))
            && (forall o :: o != p ==> (InCart(e.items, o) <==> InCart(items, o))))
  {
    match Find(items, p)
    case None =>
    case Some(i) =>
      DeleteLine(items, i);
      QuantityOfAt(items, i);
      assert items == items[..i] + [items[i]] + items[i + 1..];
      SumQuantitiesAppend(items[..i] + [items[i]], items[i + 1..]);
      SumQuantitiesAppend(items[..i], [items[i]]);
      SumQuantitiesAppend(items[..i], items[i + 1..]);
      assert [] + [items[i]] == [items[i]];
  }

  /** `remove_from_cart`. */
  method RemoveFromCart(cart: Cart, product: Product) returns (reply: CartReply)
    requires cart.Valid()
    modifies cart
    ensures cart.Valid()
    ensures var e := RemoveEdit(old(cart.items), product);
      && (e.Accepted? ==> cart.items == e.items && reply == Updated(SumQuantities(cart.items), CostOf(cart.items)))
      && (e.Rejected? ==> cart.items == old(cart.items) && reply == Refused(e.reason))
  {
    RemoveEditSpec(cart.items, product);
    var k := Find(cart.items, product);
    if k.None? {
      return Refused(ItemNotFound);
    }
    cart.items := cart.items[..k.value] + cart.items[k.value + 1..];
    reply := Reply(cart);
  }

  /** `clear_cart`: deletes every line of the caller's cart. */
  method ClearCart(cart: Cart)
    modifies cart
    ensures cart.items == [] && cart.Valid() && cart.IsEmpty()
  {
    cart.items := [];
  }

  // ---------------------------------------------------------------------------------------------
  // Guest-cart merge (login_user and signup)

  /** One guest line moved into the user's cart: added onto the user's line for the product, or a new line. */
  function MergeLine(user: seq<CartItem>, line: CartItem): seq<CartItem>
  {
    match Find(user, line.product)
    case None => [line] + user
    case Some(k) => user[k := CartItem(line.product, user[k].quantity + line.quantity)]
  }

  /** All guest lines moved, in the guest cart's order. */
  function Merge(user: seq<CartItem>, guest: seq<CartItem>): seq<CartItem>
  {
    if guest == [] then user else MergeLine(Merge(user, guest[..|guest| - 1]), guest[|guest| - 1])
  }

  lemma MergeLineSpec(user: seq<CartItem>, line: CartItem)
    requires Distinct(user)
    ensures var r := MergeLine(user, line);
      && Distinct(r)
      && (forall o :: QuantityOf(r, o) == QuantityOf(user, o) + (if o == line.product then line.quantity else 0))
      && (forall o :: InCart(r, o) <==> o == line.product || InCart(user, o))
  {
    match Find(user, line.product)
    case None =>
      PrependLine(user, line);
    case Some(k) =>
      QuantityOfAt(user, k);
      SetLine(user, k, user[k].quantity + line.quantity);
  }

  /**
   * After the merge the user's cart holds, for every product, the user's quantity plus the guest's
   * quantity (no stock cap is applied), holds exactly the products of either cart, and still has one
   * line per product.
   */
  lemma {:induction false} MergeSpec(user: seq<CartItem>, guest: seq<CartItem>)
    requires Distinct(user)
    ensures var r := Merge(user, guest);
      && Distinct(r)
      && (forall o :: QuantityOf(r, o) == QuantityOf(user, o) + QuantityOf(guest, o))
      && (forall o :: InCart(r, o) <==> InCart(user, o) || InCart(guest, o))
    decreases |guest|
  {
    if guest != [] {
      var init, last := guest[..|guest| - 1], guest[|guest| - 1];
      MergeSpec(user, init);
      MergeLineSpec(Merge(user, init), last);
      forall o ensures InCart(guest, o) <==> InCart(init, o) || o == last.product {
        InCartLast(guest, o);
      }
    }
  }

  /** The guest-cart merge inside `login_user` and `signup`, followed by the deletion of the guest cart. */
  method MergeGuestCart(guest: Cart, user: Cart)
    requires guest != user && user.Valid()
    modifies guest, user
    ensures user.items == Merge(old(user.items), old(guest.items))
    ensures user.Valid()
    ensures guest.items == []
  {
    var lines := guest.items;
    for i := 0 to |lines|
      invariant user.items == Merge(old(user.items), lines[..i])
      invariant Distinct(user.items)
    {
      assert lines[..i + 1][..i] == lines[..i];
      MergeLineSpec(user.items, lines[i]);
      var line := lines[i];
      var k := Find(user.items, line.product);
      if k.None? {
        user.items := [line] + user.items;
      } else {
        user.items := user.items[k.value := CartItem(line.product, user.items[k.value].quantity + line.quantity)];
      }
    }
    assert lines[..|lines|] == lines;
    guest.items := [];
  }

  // ---------------------------------------------------------------------------------------------
  // checkout

  /** The products whose line asks for more than their stock, in the cart's order. */
  function OutOfStockOf(items: seq<CartItem>): seq<Product>
    reads ProductsOf(items)
  {
    if items == [] then []
    else
      var init, last := items[..|items| - 1], items[|items| - 1];
      assert ProductsOf(init) <= ProductsOf(items) by {
        forall x | x in init ensures x in items { }
      }
      OutOfStockOf(init) + (if last.quantity > last.product.stock then [last.product] else [])
  }

  /** The out-of-stock list is empty exactly when every line is covered by its product's stock. */
  lemma {:induction false} OutOfStockEmptyIff(items: seq<CartItem>)
    ensures OutOfStockOf(items) == [] <==> forall i :: 0 <= i < |items| ==> items[i].quantity <= items[i].product.stock
    decreases |items|
  {
    if items != [] {
      var init := items[..|items| - 1];
      OutOfStockEmptyIff(init);
      assert forall i :: 0 <= i < |init| ==> init[i] == items[i];
    }
  }

  /** The stock check of `checkout`, collecting the products that cannot be supplied. */
  method CollectOutOfStock(items: seq<CartItem>) returns (missing: seq<Product>)
    ensures missing == OutOfStockOf(items)
  {
    missing := [];
    for i := 0 to |items|
      invariant missing == OutOfStockOf(items[..i])
    {
      assert items[..i + 1][..i] == items[..i];
      if items[i].quantity > items[i].product.stock {
        missing := missing + [items[i].product];
      }
    }
    assert items[..|items|] == items;
  }

  /** The page `checkout` renders. */
  datatype CheckoutPage =
    | EmptyCart                                    // redirect to the cart page
    | OutOfStock(products: seq<Product>, total: int) // "Some items are out of stock"
    | Confirm(total: int)                          // the checkout form (a GET)
    | Placed(orderTotal: int, itemsCount: nat)     // checkout_success (a POST)

  /**
   * `checkout`: nothing is mutated unless the cart is non-empty, every line is covered by stock and
   * the request is a POST; then every line's product loses exactly the line's quantity of stock,
   * gains it in sold count, and the cart is emptied.
   */
  method Checkout(cart: Cart, isPost: bool) returns (page: CheckoutPage)
    requires cart.Valid()
    modifies cart, ProductsOf(cart.items)`stock, ProductsOf(cart.items)`soldCount,
             ProductsOf(cart.items)`isOnSale
    ensures cart.Valid()
    ensures old(cart.items) == [] <==> page == EmptyCart
    ensures page.OutOfStock? <==> old(cart.items) != [] && old(OutOfStockOf(cart.items)) != []
    ensures page.OutOfStock? ==> page.products == old(OutOfStockOf(cart.items))
    ensures page.OutOfStock? || page.Confirm? ==> page.total == old(CostOf(cart.items))
    ensures page.Confirm? <==> !isPost && old(cart.items) != [] && old(OutOfStockOf(cart.items)) == []
    ensures page.Placed? <==> isPost && old(cart.items) != [] && old(OutOfStockOf(cart.items)) == []
    ensures !page.Placed? ==> unchanged(cart) && unchanged(ProductsOf(old(cart.items)))
    ensures page.Placed? ==>
      && cart.items == []
      && page.orderTotal == old(CostOf(cart.items))
      && page.itemsCount == |old(cart.items)|
      && forall i :: 0 <= i < |old(cart.items)| ==>
           var line := old(cart.items[i]);
           && line.product.stock == old(line.product.stock) - line.quantity
           && line.product.soldCount == old(line.product.soldCount) + line.quantity
           && line.product.Consistent()
  {
    if cart.IsEmpty() {
      return EmptyCart;
    }
    var lines := cart.items;
    var total := cart.TotalCost();
    var missing := CollectOutOfStock(lines);
    if missing != [] {
      return OutOfStock(missing, total);
    }
    if !isPost {
      return Confirm(total);
    }
    OutOfStockEmptyIff(lines);
    for i := 0 to |lines|
      invariant cart.items == lines
      invariant forall j :: 0 <= j < i ==>
        && lines[j].product.stock == old(lines[j].product.stock) - lines[j].quantity
        && lines[j].product.soldCount == old(lines[j].product.soldCount) + lines[j].quantity
        && lines[j].product.Consistent()
      invariant forall j :: i <= j < |lines| ==>
        lines[j].product.stock == old(lines[j].product.stock) && lines[j].product.soldCount == old(lines[j].product.soldCount)
    {
      assert lines[i].product in ProductsOf(lines);
      var _ := lines[i].product.ReduceStock(lines[i].quantity);
    }
    cart.items := [];
    page := Placed(total, |lines|);
  }

  // ---------------------------------------------------------------------------------------------
  // toggle_wishlist

  type UserId = nat

  /** `s` with `e`'s membership flipped. */
  function Toggled<T>(s: set<T>, e: T): (r: set<T>)
    ensures e in r <==> e !in s
    ensures r - {e} == s - {e}
  {
    if e in s then s - {e} else s + {e}
  }

  /** Toggling the same entry twice restores the wishlist. */
  lemma ToggleTwice<T>(s: set<T>, e: T)
    ensures Toggled(Toggled(s, e), e) == s
  {
  }

  class Wishlist {
    var entries: set<(UserId, Product)>

    /** `toggle_wishlist`: adds the (user, product) row when absent, deletes it when present. */
    method Toggle(user: UserId, product: Product) returns (inWishlist: bool)
      modifies this
      ensures entries == Toggled(old(entries), (user, product))
      ensures inWishlist <==> (user, product) !in old(entries)
    {
      if (user, product) in entries {
        entries := entries - {(user, product)};
        inWishlist := false;
      } else {
        entries := entries + {(user, product)};
        inWishlist := true;
      }
    }
  }

  // ---------------------------------------------------------------------------------------------
  // submit_review

  datatype Review = Review(rating: int, comment: string, approved: bool)

  /** The keys of the approved reviews of `p`. */
  function ApprovedOf(reviews: map<(UserId, Product), Review>, p: Product): set<(UserId, Product)>
  {
    set k | k in reviews.Keys && k.1 == p && reviews[k].approved
  }

  /** The number of approved reviews of `p`. */
  function ApprovedCount(reviews: map<(UserId, Product), Review>, p: Product): nat
  {
    |ApprovedOf(reviews, p)|
  }

  /**
   * A review submitted by `user` for `p`: overwrites the rating and comment of that user's review
   * (keeping its approval), or creates an approved one. Reviews are keyed by (user, product), so
   * there is at most one per pair.
   */
  function Upsert(reviews: map<(UserId, Product), Review>, user: UserId, p: Product, rating: int, comment: string)
    : (r: map<(UserId, Product), Review>)
    ensures r.Keys == reviews.Keys + {(user, p)}
    ensures r[(user, p)].rating == rating && r[(user, p)].comment == comment
    ensures r[(user, p)].approved <==> ((user, p) in reviews ==> reviews[(user, p)].approved)
    ensures forall k :: k in reviews && k != (user, p) ==> r[k] == reviews[k]
  {
    if (user, p) in reviews
    then reviews[(user, p) := reviews[(user, p)].(rating := rating, comment := comment)]
    else reviews[(user, p) := Review(rating, comment, true)]
  }

  /** A first review of `p` by `user` adds one approved review of `p`; a resubmission leaves the number unchanged. */
  lemma UpsertApprovedCount(reviews: map<(UserId, Product), Review>, user: UserId, p: Product, rating: int, comment: string)
    ensures ApprovedCount(Upsert(reviews, user, p, rating, comment), p)
         == ApprovedCount(reviews, p) + (if (user, p) in reviews then 0 else 1)
  {
    var r := Upsert(reviews, user, p, rating, comment);
    if (user, p) in reviews {
      UpsertKeepsApproved(reviews, r, user, p, p);
    } else {
      UpsertAddsApproved(reviews, r, user, p);
    }
  }

  /** A review of `p` never changes the number of approved reviews of another product. */
  lemma UpsertOtherCounts(reviews: map<(UserId, Product), Review>, user: UserId, p: Product, rating: int, comment: string, o: Product)
    requires o != p
    ensures ApprovedCount(Upsert(reviews, user, p, rating, comment), o) == ApprovedCount(reviews, o)
  {
    UpsertKeepsApproved(reviews, Upsert(reviews, user, p, rating, comment), user, p, o);
  }

  /** A newly created review is approved and adds its key to the approved reviews of its product. */
  lemma UpsertAddsApproved(reviews: map<(UserId, Product), Review>, r: map<(UserId, Product), Review>, user: UserId, p: Product)
    requires (user, p) !in reviews
    requires r.Keys == reviews.Keys + {(user, p)}
    requires forall k :: k in reviews && k != (user, p) ==> r[k] == reviews[k]
    requires r[(user, p)].approved
    ensures ApprovedCount(r, p) == ApprovedCount(reviews, p) + 1
  {
    var before, after := ApprovedOf(reviews, p), ApprovedOf(r, p);
    forall k | k in after ensures k in before + {(user, p)} {
      if k != (user, p) {
        assert k in reviews && reviews[k] == r[k];
      }
    }
    forall k | k in before ensures k in after {
      assert k in r && r[k] == reviews[k];
    }
    assert (user, p) in after;
    assert after == before + {(user, p)};
    assert (user, p) !in before;
  }

  /** Where the upsert did not create a review of `o`, the approved reviews of `o` are the same. */
  lemma UpsertKeepsApproved(reviews: map<(UserId, Product), Review>, r: map<(UserId, Product), Review>, user: UserId, p: Product, o: Product)
    requires r.Keys == reviews.Keys + {(user, p)}
    requires forall k :: k in reviews && k != (user, p) ==> r[k] == reviews[k]
    requires (user, p) in reviews ==> r[(user, p)].approved == reviews[(user, p)].approved
    requires o != p || (user, p) in reviews
    ensures ApprovedOf(r, o) == ApprovedOf(reviews, o)
  {
    forall k | k in ApprovedOf(r, o) ensures k in ApprovedOf(reviews, o) { }
    forall k | k in ApprovedOf(reviews, o) ensures k in ApprovedOf(r, o) { }
  }

  datatype ReviewReply = ReviewSaved | ReviewRefused // the latter: a negative rating violates CHECK (rating >= 0)

  class ReviewBoard {
    var reviews: map<(UserId, Product), Review>

    /**
     * `submit_review`: upserts the caller's review with the stripped comment, then sets the
     * product's review count to its number of approved reviews when there is at least one.
     */
    method SubmitReview(user: UserId, product: Product, rating: int, comment: string) returns (reply: ReviewReply)
      modifies this, product`reviewCount, product`isOnSale
      ensures rating < 0 ==> reply == ReviewRefused && reviews == old(reviews) && unchanged(product)
      ensures rating >= 0 ==> reply == ReviewSaved && reviews == Upsert(old(reviews), user, product, rating, Text.Strip(comment))
      ensures rating >= 0 && ApprovedCount(reviews, product) > 0 ==>
                product.reviewCount == ApprovedCount(reviews, product) && product.Consistent()
      ensures rating >= 0 && ApprovedCount(reviews, product) == 0 ==>
                product.reviewCount == old(product.reviewCount) && product.isOnSale == old(product.isOnSale)
      ensures rating >= 0 && (user, product) !in old(reviews) ==> product.reviewCount == old(ApprovedCount(reviews, product)) + 1
    {
      if rating < 0 {
        return ReviewRefused;
      }
      var stripped := Text.Strip(comment);
      var updated := Upsert(reviews, user, product, rating, stripped);
      UpsertApprovedCount(reviews, user, product, rating, stripped);
      var approved := ApprovedCount(updated, product);
      if approved > 0 {
        product.reviewCount := approved;
        product.Save();
      }
      reviews := updated;
      reply := ReviewSaved;
    }
  }

  // ---------------------------------------------------------------------------------------------
  // search_api

  /**
   * The guard of `search_api`: the stripped query goes to the database only when it has at least
   * two characters, which happens exactly when the raw query has two non-whitespace characters.
   */
  function SearchTerm(raw: string): (r: Option<string>)
    ensures r.Some? <==> Text.NonSpaceCount(raw) >= 2
    ensures r.Some? ==> r.value == Text.Strip(raw)
  {
    Text.StripLengthAtLeastTwo(raw);
    var query := Text.Strip(raw);
    if |query| < 2 then None else Some(query)
  }
}
