/** The cart: adding a product under the stock guards, the cart total at live
    catalog prices, and clearing. */
module Shopping {
  import opened Model
  import opened Sums

  /** Add `qty` of product `pid` to the session's cart. The request is refused
      when the product is unknown, the quantity is not positive, the quantity
      alone exceeds the stock, or the quantity together with what the cart
      already holds exceeds the stock; otherwise the cart entry becomes the
      cumulative quantity. Nothing but the cart is ever touched. */
  function AddToCart(s: Store, pid: int, qty: int): (r: Result<Store, StoreError>)
    ensures r.Success? <==>
      && FindProduct(s.products, pid).Some?
      && 0 < qty <= s.products[FindProduct(s.products, pid).value].stock
      && Held(s.cart, pid) + qty <= s.products[FindProduct(s.products, pid).value].stock
    ensures r.Success? ==>
      && r.value.products == s.products && r.value.users == s.users
      && r.value.current == s.current && r.value.lastDepletion == s.lastDepletion
      && r.value.cart.Keys == s.cart.Keys + {pid}
      && r.value.cart[pid] == Held(s.cart, pid) + qty
      && r.value.cart[pid] <= s.products[FindProduct(s.products, pid).value].stock
      && (forall k :: k in s.cart && k != pid ==> r.value.cart[k] == s.cart[k])
    ensures r == Failure(ProductNotFound) <==> FindProduct(s.products, pid).None?
    ensures r == Failure(InvalidQuantity) <==> FindProduct(s.products, pid).Some? && qty <= 0
    ensures FindProduct(s.products, pid).Some? ==>
      var stock := s.products[FindProduct(s.products, pid).value].stock;
      && (r == Failure(InsufficientStock(stock)) <==> 0 < qty && qty > stock)
      && (r == Failure(CartExceedsStock(Held(s.cart, pid), stock)) <==>
            0 < qty <= stock && Held(s.cart, pid) + qty > stock)
  {
    match FindProduct(s.products, pid)
    case None => Failure(ProductNotFound)
    case Some(i) =>
      var stock := s.products[i].stock;
      if qty <= 0 then Failure(InvalidQuantity)
      else if qty > stock then Failure(InsufficientStock(stock))
      else
        var held := Held(s.cart, pid);
        if held + qty > stock then Failure(CartExceedsStock(held, stock))
        else Success(s.(cart := s.cart[pid := held + qty]))
  }

  /** Empty the cart; nothing else changes. */
  function ClearCart(s: Store): (r: Store)
    ensures r.cart == map[]
    ensures r.products == s.products && r.users == s.users
    ensures r.current == s.current && r.lastDepletion == s.lastDepletion
  {
    s.(cart := map[])
  }

  lemma ClearCartIdempotent(s: Store)
    ensures ClearCart(ClearCart(s)) == ClearCart(s)
  {
  }

  /** The subtotal of one cart line: the product's live price times the
      quantity held. Ids the catalog does not know contribute nothing; every
      reachable cart holds only known ids (see `Session.Valid`). */
  function LineTotal(ps: seq<Product>, cart: Cart, pid: int): int
  {
    match FindProduct(ps, pid)
    case Some(i) => ps[i].price * Held(cart, pid)
    case None => 0
  }

  /** Each carted line's subtotal, keyed by product id. */
  function Lines(ps: seq<Product>, cart: Cart): (m: map<int, int>)
    ensures m.Keys == cart.Keys
  {
    map pid | pid in cart :: LineTotal(ps, cart, pid)
  }

  /** Reference definition of the cart total: the sum of the line subtotals,
      independent of any iteration order. */
  ghost function CartSum(ps: seq<Product>, cart: Cart): int
  {
    SumOver(Lines(ps, cart), cart.Keys)
  }

  /** The cart total at live prices, summed line by line over the cart in
      whatever order the cart yields its entries. */
  method CartTotal(ps: seq<Product>, cart: Cart) returns (total: int)
    requires CartKnown(ps, cart)
    ensures total == CartSum(ps, cart)
  {
    var lines := Lines(ps, cart);
    total := 0;
    var left := cart.Keys;
    while left != {}
      invariant left <= cart.Keys
      invariant total + SumOver(lines, left) == SumOver(lines, cart.Keys)
      decreases |left|
    {
      NonEmpty(left);
      var pid :| pid in left;
      var product := ps[FindProduct(ps, pid).value];
      SumOverRemove(lines, left, pid);
      total := total + product.price * cart[pid];
      left := left - {pid};
    }
  }

  /** The empty cart totals zero. */
  lemma EmptyCartTotal(ps: seq<Product>)
    ensures CartSum(ps, map[]) == 0
  {
  }

  /** Changing one cart line changes only that line's subtotal. */
  lemma LinesUpdate(ps: seq<Product>, cart: Cart, pid: int, n: int)
    ensures Lines(ps, cart[pid := n]) == Lines(ps, cart)[pid := LineTotal(ps, cart[pid := n], pid)]
  {
  }

  /** Setting one carted line to `n` replaces that line's subtotal in the total. */
  lemma SetLineTotal(ps: seq<Product>, cart: Cart, pid: int, n: int)
    ensures CartSum(ps, cart[pid := n])
      == CartSum(ps, cart) - LineTotal(ps, cart, pid) + LineTotal(ps, cart[pid := n], pid)
  {
    var before := Lines(ps, cart);
    LinesUpdate(ps, cart, pid, n);
    SumOverUpdate(before, pid, LineTotal(ps, cart[pid := n], pid));
    assert cart[pid := n].Keys == before.Keys + {pid};
  }

  /** A successful add raises the cart total by exactly price times quantity. */
  lemma AddToCartTotal(s: Store, pid: int, qty: int)
    requires AddToCart(s, pid, qty).Success?
    ensures var t := AddToCart(s, pid, qty).value;
      CartSum(t.products, t.cart)
           == CartSum(s.products, s.cart) + s.products[FindProduct(s.products, pid).value].price * qty
  {
    var t := AddToCart(s, pid, qty).value;
    var held := Held(s.cart, pid);
    var price := s.products[FindProduct(s.products, pid).value].price;
    assert t.products == s.products && t.cart == s.cart[pid := held + qty];
    SetLineTotal(s.products, s.cart, pid, held + qty);
    assert LineTotal(s.products, s.cart, pid) == price * held;
    assert LineTotal(t.products, t.cart, pid) == price * (held + qty);
    MulDistributes(price, held, qty);
  }

  /** With non-negative prices and positive quantities the total is never negative. */
  lemma CartSumNonNegative(ps: seq<Product>, cart: Cart)
    requires forall i :: 0 <= i < |ps| ==> ps[i].price >= 0
    requires forall pid :: pid in cart ==> cart[pid] > 0
    ensures CartSum(ps, cart) >= 0
  {
    var lines := Lines(ps, cart);
    forall pid | pid in lines
      ensures lines[pid] >= 0
    {
      if FindProduct(ps, pid).Some? {
        MulNonNegative(ps[FindProduct(ps, pid).value].price, cart[pid]);
      }
    }
    SumOverNonNegative(lines, cart.Keys);
  }
}
