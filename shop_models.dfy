/**
 * The storefront's product and cart records: sale flag, final price, discount percentage,
 * stock movements, and the cart totals.
 *
 * Money is held in integer cents (the source's two-decimal `Decimal` fields), so every price
 * computation here is exact.
 */
module ShopModels {
  import opened Wrappers

  /** `abs(a - b)`. */
  function Dist(a: int, b: int): nat
  {
    if a >= b then a - b else b - a
  }

  /**
   * Python's `round()` of the exact quotient `n / m`: the nearest integer, ties going to the even one.
   */
  function RoundHalfEven(n: int, m: int): (r: int)
    requires m > 0
    ensures 2 * Dist(r * m, n) <= m
    ensures 2 * Dist(r * m, n) == m ==> r % 2 == 0
  {
    var q, rem := n / m, n % m;
    assert n == q * m + rem;
    assert (q + 1) * m == q * m + m;
    if 2 * rem < m then q
    else if 2 * rem > m then q + 1
    else if q % 2 == 0 then q
    else q + 1
  }

  lemma MulCancel(a: int, b: int, m: int)
    requires m > 0
    ensures a * m < b * m <==> a < b
    ensures a * m <= b * m <==> a <= b
  {
    assert b * m - a * m == (b - a) * m;
  }

  /** If `n / m` lies between `lo` and `hi`, so does its rounding. */
  lemma RoundBetween(n: int, m: int, lo: int, hi: int)
    requires m > 0 && lo * m <= n <= hi * m
    ensures lo <= RoundHalfEven(n, m) <= hi
  {
    var q, rem := n / m, n % m;
    assert n == q * m + rem;
    assert (q + 1) * m == q * m + m;
    MulCancel(lo, q + 1, m);
    MulCancel(q, hi, m);
    assert lo <= q <= hi;
    if rem > 0 {
      assert q < hi;
    }
  }

  /** A stored discount counts only when it is present and non-zero (`Decimal` truthiness). */
  predicate HasDiscount(discount: Option<int>)
  {
    discount.Some? && discount.value != 0
  }

  /** The value `Product.save` gives `is_on_sale`. */
  predicate SaleRule(price: int, discount: Option<int>)
  {
    HasDiscount(discount) && discount.value < price
  }

  class Product {
    var price: int                 // cents
    var discountPrice: Option<int> // cents
    var stock: nat
    var soldCount: nat
    var available: bool
    var isOnSale: bool
    var reviewCount: nat

    /** The state every `save()` leaves behind. */
    predicate Consistent()
      reads this
    {
      isOnSale == SaleRule(price, discountPrice)
    }

    /** `save()`: recomputes the sale flag from the price and the discount. */
    method Save()
      modifies this`isOnSale
      ensures Consistent()
    {
      isOnSale := HasDiscount(discountPrice) && discountPrice.value < price;
    }

    /**
     * `final_price`: the discount price while the product is flagged on sale with a discount, else
     * the price. After `save()`, the price paid is never above the list price, and is below it
     * exactly when the product is on sale.
     */
    function FinalPrice(): (r: int)
      reads this
      ensures isOnSale && HasDiscount(discountPrice) ==> r == discountPrice.value
      ensures !(isOnSale && HasDiscount(discountPrice)) ==> r == price
      ensures Consistent() ==> r <= price && (r < price <==> isOnSale)
    {
      if isOnSale && HasDiscount(discountPrice) then discountPrice.value else price
    }

    /** `discount_percentage`: the saving as a whole percentage of the price, or 0. */
    function DiscountPercentage(): (r: int)
      reads this
      ensures !(isOnSale && HasDiscount(discountPrice) && price > 0) ==> r == 0
      ensures isOnSale && HasDiscount(discountPrice) && price > 0 ==>
                2 * Dist(r * price, 100 * (price - discountPrice.value)) <= price
      ensures (isOnSale && HasDiscount(discountPrice) && price > 0 &&
               2 * Dist(r * price, 100 * (price - discountPrice.value)) == price) ==> r % 2 == 0
    {
      if isOnSale && HasDiscount(discountPrice) && price > 0
      then RoundHalfEven(100 * (price - discountPrice.value), price)
      else 0
    }

    /** `is_in_stock`. */
    predicate IsInStock()
      reads this
    {
      stock > 0
    }

    /** `reduce_stock(quantity)`: sells `quantity` units when that many are in stock. */
    method ReduceStock(quantity: nat) returns (ok: bool)
      modifies this`stock, this`soldCount, this`isOnSale
      ensures ok <==> old(stock) >= quantity
      ensures ok ==> stock == old(stock) - quantity && soldCount == old(soldCount) + quantity && Consistent()
      ensures !ok ==> stock == old(stock) && soldCount == old(soldCount) && isOnSale == old(isOnSale)
      ensures stock + soldCount == old(stock) + old(soldCount)
      ensures ok ==> (IsInStock() <==> old(stock) > quantity)
    {
      if stock >= quantity {
        stock := stock - quantity;
        soldCount := soldCount + quantity;
        Save();
        return true;
      }
      return false;
    }

    /** `increase_stock(quantity)`: restocks; the `save()` it ends with only refreshes the sale flag. */
    method IncreaseStock(quantity: nat)
      modifies this`stock, this`isOnSale
      ensures stock == old(stock) + quantity
      ensures Consistent()
      ensures old(Consistent()) ==> isOnSale == old(isOnSale)
    {
      stock := stock + quantity;
      Save();
    }
  }

  /**
   * After `save()`, with the discount respecting its 0.01 minimum, the discount percentage lies in
   * [0, 100], and it is positive only for a product on sale.
   */
  lemma SavedDiscountPercentage(p: Product)
    requires p.Consistent()
    requires p.discountPrice.Some? ==> p.discountPrice.value >= 1
    ensures 0 <= p.DiscountPercentage() <= 100
    ensures p.DiscountPercentage() > 0 ==> p.isOnSale
  {
    if p.isOnSale && p.price > 0 {
      var d := p.discountPrice.value;
      assert 0 * p.price <= 100 * (p.price - d) <= 100 * p.price;
      RoundBetween(100 * (p.price - d), p.price, 0, 100);
    }
  }

  /** A cart line (`CartItem`): a product and how many units of it the cart holds. */
  datatype CartItem = CartItem(product: Product, quantity: nat)

  /** No product appears on two lines (the `unique_together` of cart and product). */
  predicate Distinct(items: seq<CartItem>)
  {
    forall i, j :: 0 <= i < j < |items| ==> items[i].product != items[j].product
  }

  /** Whether some line of `items` is for `p`. */
  predicate InCart(items: seq<CartItem>, p: Product)
  {
    exists i :: 0 <= i < |items| && items[i].product == p
  }

  /** A cart holds `p` when its earlier lines do or its last line is for `p`. */
  lemma InCartLast(items: seq<CartItem>, p: Product)
    requires items != []
    ensures InCart(items, p) <==> InCart(items[..|items| - 1], p) || items[|items| - 1].product == p
  {
    var init := items[..|items| - 1];
    if InCart(init, p) {
      var k :| 0 <= k < |init| && init[k].product == p;
      assert items[k].product == p;
    }
    if InCart(items, p) && items[|items| - 1].product != p {
      var k :| 0 <= k < |items| && items[k].product == p;
      assert init[k].product == p;
    }
  }

  /** The products the lines refer to. */
  function ProductsOf(items: seq<CartItem>): set<Product>
  {
    set i | i in items :: i.product
  }

  /** `Cart.total_items`: the sum of the line quantities. No line exceeds it, and it is 0 exactly when every line is. */
  function SumQuantities(items: seq<CartItem>): (r: nat)
    ensures forall i :: 0 <= i < |items| ==> items[i].quantity <= r
    ensures r == 0 <==> forall i :: 0 <= i < |items| ==> items[i].quantity == 0
  {
    if items == [] then 0 else SumQuantities(items[..|items| - 1]) + items[|items| - 1].quantity
  }

  lemma {:induction false} SumQuantitiesAppend(a: seq<CartItem>, b: seq<CartItem>)
    ensures SumQuantities(a + b) == SumQuantities(a) + SumQuantities(b)
    decreases |b|
  {
    if b == [] {
      assert a + b == a;
    } else {
      assert (a + b)[..|a + b| - 1] == a + b[..|b| - 1];
      SumQuantitiesAppend(a, b[..|b| - 1]);
    }
  }

  /** The quantity of `p` held by the cart, 0 when it has no line for `p`. */
  function QuantityOf(items: seq<CartItem>, p: Product): nat
  {
    if items == [] then 0
    else QuantityOf(items[..|items| - 1], p) + (if items[|items| - 1].product == p then items[|items| - 1].quantity else 0)
  }

  lemma {:induction false} QuantityOfAppend(a: seq<CartItem>, b: seq<CartItem>, p: Product)
    ensures QuantityOf(a + b, p) == QuantityOf(a, p) + QuantityOf(b, p)
    decreases |b|
  {
    if b == [] {
      assert a + b == a;
    } else {
      assert (a + b)[..|a + b| - 1] == a + b[..|b| - 1];
      QuantityOfAppend(a, b[..|b| - 1], p);
    }
  }

  /** A product without a line has quantity 0. */
  lemma {:induction false} QuantityOfAbsent(items: seq<CartItem>, p: Product)
    requires !InCart(items, p)
    ensures QuantityOf(items, p) == 0
    decreases |items|
  {
    if items != [] {
      var init := items[..|items| - 1];
      assert !InCart(init, p) by {
        forall i | 0 <= i < |init| ensures init[i].product != p {
          assert init[i] == items[i];
        }
      }
      QuantityOfAbsent(init, p);
    }
  }

  /** With distinct lines, no line of a slice that skips line `i` is for the product of line `i`. */
  lemma OthersNotInCart(items: seq<CartItem>, i: nat, lo: nat, hi: nat)
    requires Distinct(items) && i < |items| && lo <= hi <= |items| && (i < lo || hi <= i)
    ensures !InCart(items[lo..hi], items[i].product)
  {
    var part := items[lo..hi];
    forall k | 0 <= k < |part| ensures part[k].product != items[i].product {
      assert part[k] == items[lo + k];
    }
  }

  /** The quantities of a cart split around one line. */
  lemma QuantityOfSplice(a: seq<CartItem>, x: CartItem, b: seq<CartItem>, p: Product)
    ensures QuantityOf(a + [x] + b, p) == QuantityOf(a, p) + (if x.product == p then x.quantity else 0) + QuantityOf(b, p)
  {
    QuantityOfAppend(a + [x], b, p);
    QuantityOfAppend(a, [x], p);
    assert [x][..0] == [];
  }

  /** With distinct lines, the quantity of a product is the quantity on its line. */
  lemma QuantityOfAt(items: seq<CartItem>, i: nat)
    requires Distinct(items) && i < |items|
    ensures QuantityOf(items, items[i].product) == items[i].quantity
  {
    var p := items[i].product;
    var before, rest := items[..i], items[i + 1..];
    assert items == before + [items[i]] + rest;
    QuantityOfSplice(before, items[i], rest, p);
    OthersNotInCart(items, i, 0, i);
    OthersNotInCart(items, i, i + 1, |items|);
    QuantityOfAbsent(before, p);
    QuantityOfAbsent(rest, p);
  }

  /**
   * `CartItem.item_total`: the final price times the quantity. After `save()`, a line never costs
   * more than its list price times its quantity, and a non-empty line costs less exactly when the
   * product is on sale.
   */
  function ItemTotal(item: CartItem): (r: int)
    reads item.product
    ensures item.product.Consistent() ==> r <= item.product.price * item.quantity
    ensures item.product.Consistent() && item.quantity > 0 ==>
              (r < item.product.price * item.quantity <==> item.product.isOnSale)
  {
    var f, p, q := item.product.FinalPrice(), item.product.price, item.quantity;
    assert p * q - f * q == (p - f) * q;
    f * q
  }

  /** The sum of the item totals of `items`. */
  function CostOf(items: seq<CartItem>): int
    reads ProductsOf(items)
  {
    if items == [] then 0
    else
      var init := items[..|items| - 1];
      assert ProductsOf(init) <= ProductsOf(items) by {
        forall x | x in init ensures x in items { }
      }
      CostOf(init) + ItemTotal(items[|items| - 1])
  }

  lemma {:induction false} CostOfAppend(a: seq<CartItem>, b: seq<CartItem>)
    ensures CostOf(a + b) == CostOf(a) + CostOf(b)
    decreases |b|
  {
    if b == [] {
      assert a + b == a;
    } else {
      assert (a + b)[..|a + b| - 1] == a + b[..|b| - 1];
      CostOfAppend(a, b[..|b| - 1]);
    }
  }

  class Cart {
    var items: seq<CartItem>

    ghost predicate Valid()
      reads this
    {
      Distinct(items)
    }

    /** `is_empty`. */
    predicate IsEmpty()
      reads this
    {
      |items| == 0
    }

    /** `total_cost`: accumulates the item totals line by line. */
    method TotalCost() returns (total: int)
      ensures total == CostOf(items)
    {
      total := 0;
      for i := 0 to |items|
        invariant total == CostOf(items[..i])
      {
        assert items[..i + 1][..i] == items[..i];
        total := total + ItemTotal(items[i]);
      }
      assert items[..|items|] == items;
    }
  }

  /** An empty cart holds nothing and costs nothing. */
  lemma EmptyCartTotals(cart: Cart)
    requires cart.IsEmpty()
    ensures SumQuantities(cart.items) == 0 && CostOf(cart.items) == 0
  {
  }
}
