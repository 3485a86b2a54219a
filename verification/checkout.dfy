/** Checkout: selling the cart against the catalog, recording the order, and
    the cart view that computes the total and offers checkout or clearing. */
module Checkout {
  import opened Model
  import opened Sums
  import opened Shopping
  import opened Stock

  /** The product after `qty` units are sold at `now`: the stock drops by
      `qty` with no floor at zero, and the restock timer is armed exactly when
      the stock lands on zero (otherwise the timer is left as it was). */
  function Sell(p: Product, qty: int, now: int): (q: Product)
    ensures q.stock == p.stock - qty
    ensures q.restockTime == if q.stock == 0 then Some(now) else p.restockTime
    ensures q.id == p.id && q.name == p.name && q.price == p.price && q.restockTimer == p.restockTimer
  {
    var left := p.stock - qty;
    p.(stock := left, restockTime := if left == 0 then Some(now) else p.restockTime)
  }

  /** The catalog after selling the whole cart: the product each carted id
      resolves to is sold its cart quantity; every product whose id is not
      carted is unchanged. */
  function Purchase(ps: seq<Product>, cart: Cart, now: int): (r: seq<Product>)
    ensures SameCatalog(ps, r)
    ensures forall pid :: pid in cart && FindProduct(ps, pid).Some? ==>
      r[FindProduct(ps, pid).value] == Sell(ps[FindProduct(ps, pid).value], cart[pid], now)
    ensures forall i :: 0 <= i < |ps| && ps[i].id !in cart ==> r[i] == ps[i]
  {
    seq(|ps|, i requires 0 <= i < |ps| =>
      if ps[i].id in cart && FindProduct(ps, ps[i].id) == Some(i)
      then Sell(ps[i], cart[ps[i].id], now)
      else ps[i])
  }

  /** The sale as the store performs it: walk the cart entries one at a time,
      in whatever order the cart yields them, looking each product up and
      decrementing it. Whatever the order, the catalog ends up as `Purchase`
      describes. */
  method SellCart(ps: seq<Product>, cart: Cart, now: int) returns (r: seq<Product>)
    requires CartKnown(ps, cart)
    ensures r == Purchase(ps, cart, now)
  {
    r := ps;
    var left := cart.Keys;
    while left != {}
      invariant left <= cart.Keys
      invariant SameCatalog(ps, r)
      invariant forall i :: 0 <= i < |ps| ==>
        r[i] == if ps[i].id in cart && ps[i].id !in left && FindProduct(ps, ps[i].id) == Some(i)
                then Sell(ps[i], cart[ps[i].id], now)
                else ps[i]
      decreases |left|
    {
      NonEmpty(left);
      var pid :| pid in left;
      FindProductSameCatalog(ps, r, pid);
      var i := FindProduct(r, pid).value;
      r := r[i := Sell(r[i], cart[pid], now)];
      left := left - {pid};
    }
    assert forall i :: 0 <= i < |ps| ==> r[i] == Purchase(ps, cart, now)[i];
  }

  /** A product that was sold out when the cart was sold and is bought again is
      left oversold: its stock goes negative and its timer stays armed. */
  lemma OversellKeepsTimer(ps: seq<Product>, cart: Cart, now: int, pid: int)
    requires pid in cart && cart[pid] > 0
    requires FindProduct(ps, pid).Some? && ps[FindProduct(ps, pid).value].stock == 0
    ensures var i := FindProduct(ps, pid).value;
      && Purchase(ps, cart, now)[i].stock < 0
      && Purchase(ps, cart, now)[i].restockTime == ps[i].restockTime
  {
  }

  /** Selling a cart of positive quantities keeps every product coherent:
      it never leaves stock behind a pending timer, and arms the timer of every
      product it sells out. */
  lemma PurchaseKeepsCoherent(ps: seq<Product>, cart: Cart, now: int)
    requires AllCoherent(ps)
    requires forall pid :: pid in cart ==> cart[pid] > 0
    ensures AllCoherent(Purchase(ps, cart, now))
  {
    var r := Purchase(ps, cart, now);
    forall i | 0 <= i < |ps|
      ensures Coherent(r[i])
    {
      if ps[i].id in cart && FindProduct(ps, ps[i].id) == Some(i) {
        assert r[i] == Sell(ps[i], cart[ps[i].id], now);
      }
    }
  }

  /** A confirmed checkout by the signed-in user: the cart is sold, the user's
      history gains one order (at `now`, for `total`, holding the cart as it
      was), and the cart is emptied. */
  function Commit(s: Store, total: int, now: int): (r: Store)
    requires s.current.Some? && s.current.value < |s.users|
    requires CartKnown(s.products, s.cart)
    ensures r.products == Purchase(s.products, s.cart, now)
    ensures r.cart == map[]
    ensures r.current == s.current && r.lastDepletion == s.lastDepletion
    ensures |r.users| == |s.users|
    ensures var u, u' := s.users[s.current.value], r.users[s.current.value];
      && u'.username == u.username && u'.password == u.password
      && u'.orders == u.orders + [Order(now, total, s.cart)]
    ensures forall j :: 0 <= j < |s.users| && j != s.current.value ==> r.users[j] == s.users[j]
  {
    var me := s.current.value;
    var u := s.users[me];
    s.(products := Purchase(s.products, s.cart, now),
       users := s.users[me := u.(orders := u.orders + [Order(now, total, s.cart)])],
       cart := map[])
  }

  /** Checkout of `total`: refused for a guest, abandoned when the user does
      not confirm, and committed otherwise. */
  function Checkout(s: Store, total: int, confirmed: bool, now: int): (r: Result<Store, StoreError>)
    requires s.current.Some? && confirmed ==> s.current.value < |s.users| && CartKnown(s.products, s.cart)
    ensures r == Failure(NotSignedIn) <==> s.current.None?
    ensures r == Failure(CheckoutCancelled) <==> s.current.Some? && !confirmed
    ensures r.Success? <==> s.current.Some? && confirmed
    ensures r.Success? ==> r.value == Commit(s, total, now)
  {
    if s.current.None? then Failure(NotSignedIn)
    else if !confirmed then Failure(CheckoutCancelled)
    else Success(Commit(s, total, now))
  }

  /** The options of the cart view. */
  datatype CartChoice = CheckOut | ClearAll | Back

  /** The cart view. An empty cart is reported and nothing else happens;
      otherwise the total is computed at live prices and the chosen option is
      carried out: checkout of that total, clearing the cart, or going back. */
  method ViewCart(s: Store, choice: CartChoice, confirmed: bool, now: int) returns (r: Store)
    requires CartKnown(s.products, s.cart)
    requires s.current.Some? ==> s.current.value < |s.users|
    ensures s.cart == map[] || choice == Back ==> r == s
    ensures s.cart != map[] && choice == ClearAll ==> r == ClearCart(s)
    ensures s.cart != map[] && choice == CheckOut ==>
      r == if s.current.Some? && confirmed then Commit(s, CartSum(s.products, s.cart), now) else s
  {
    if s.cart == map[] {
      return s;
    }
    var total := CartTotal(s.products, s.cart);
    match choice {
      case CheckOut =>
        match Checkout(s, total, confirmed, now) {
          case Success(t) => r := t;
          case Failure(_) => r := s;
        }
      case ClearAll => r := ClearCart(s);
      case Back => r := s;
    }
  }
}
