/** The stock lifecycle: timed restocking of sold-out products and the random
    depletion event, both evaluated lazily once per loop iteration against a
    clock value `now` and random choices supplied by the caller. */
module Stock {
  import opened Model

  /** Bounds of the random restock amount, inclusive. */
  const MinRestock := 5
  const MaxRestock := 20

  /** Seconds between two random depletion events. */
  const DepletionInterval := 120

  /** Whether the restock timer reads as set. The store tests the stored
      timestamp for truth, so a timer armed at time 0 reads as unset. */
  predicate Armed(p: Product)
  {
    p.restockTime.Some? && p.restockTime.value != 0
  }

  /** The product is sold out and its restock delay has elapsed. */
  predicate Due(p: Product, now: int)
  {
    p.stock == 0 && Armed(p) && now - p.restockTime.value >= p.restockTimer
  }

  /** One random restock amount per catalog position, each within bounds. */
  predicate RestockAmounts(amounts: seq<int>, n: int)
  {
    |amounts| == n && forall i :: 0 <= i < |amounts| ==> MinRestock <= amounts[i] <= MaxRestock
  }

  /** Refill every due product with its drawn amount and disarm its timer;
      every other product (in stock, oversold, or still waiting) is left as is. */
  function RestockProducts(ps: seq<Product>, now: int, amounts: seq<int>): (r: seq<Product>)
    requires RestockAmounts(amounts, |ps|)
    ensures SameCatalog(ps, r)
    ensures forall i :: 0 <= i < |ps| && Due(ps[i], now) ==>
      && r[i].stock == amounts[i]
      && MinRestock <= r[i].stock <= MaxRestock
      && r[i].restockTime == None
    ensures forall i :: 0 <= i < |ps| && !Due(ps[i], now) ==> r[i] == ps[i]
    ensures forall i :: 0 <= i < |r| ==> !Due(r[i], now)
    decreases |ps|
  {
    if |ps| == 0 then []
    else
      var p := ps[0];
      var p' := if Due(p, now) then p.(stock := amounts[0], restockTime := None) else p;
      [p'] + RestockProducts(ps[1..], now, amounts[1..])
  }

  /** Restocking twice at the same moment changes nothing the second time. */
  lemma RestockIdempotent(ps: seq<Product>, now: int, a: seq<int>, b: seq<int>)
    requires RestockAmounts(a, |ps|) && RestockAmounts(b, |ps|)
    ensures RestockProducts(RestockProducts(ps, now, a), now, b) == RestockProducts(ps, now, a)
  {
    var once := RestockProducts(ps, now, a);
    var twice := RestockProducts(once, now, b);
    assert forall i :: 0 <= i < |once| ==> twice[i] == once[i];
  }

  /** Catalog positions of the products currently in stock, in catalog order. */
  function InStock(ps: seq<Product>): (r: seq<nat>)
    ensures forall k :: 0 <= k < |r| ==> r[k] < |ps| && ps[r[k]].stock > 0
    ensures forall i :: 0 <= i < |ps| && ps[i].stock > 0 ==> i in r
    ensures forall k, l :: 0 <= k < l < |r| ==> r[k] < r[l]
  {
    InStockFrom(ps, 0)
  }

  /** The in-stock positions at or after `from`. */
  function InStockFrom(ps: seq<Product>, from: nat): (r: seq<nat>)
    requires from <= |ps|
    ensures forall k :: 0 <= k < |r| ==> from <= r[k] < |ps| && ps[r[k]].stock > 0
    ensures forall i :: from <= i < |ps| && ps[i].stock > 0 ==> i in r
    ensures forall k, l :: 0 <= k < l < |r| ==> r[k] < r[l]
    decreases |ps| - from
  {
    if from == |ps| then []
    else (if ps[from].stock > 0 then [from] else []) + InStockFrom(ps, from + 1)
  }

  /** A product as left by a depletion event at `now`. */
  function Depleted(p: Product, now: int): (q: Product)
    ensures q.stock == 0 && q.restockTime == Some(now)
    ensures q.id == p.id && q.name == p.name && q.price == p.price && q.restockTimer == p.restockTimer
  {
    p.(stock := 0, restockTime := Some(now))
  }

  /** The random depletion event. Once the interval has passed since the last
      event and some product is in stock, the `pick`-th in-stock product is sold
      out, its timer is armed at `now`, and `now` becomes the time of the last
      event; otherwise nothing at all changes (the interval keeps counting from
      the last actual event). */
  function DepleteRandomly(s: Store, now: int, pick: nat): (r: Store)
    requires InStock(s.products) != [] ==> pick < |InStock(s.products)|
    ensures r.users == s.users && r.current == s.current && r.cart == s.cart
    ensures |r.products| == |s.products|
    ensures forall i :: 0 <= i < |s.products| ==>
      || r.products[i] == s.products[i]
      || (s.products[i].stock > 0 && r.products[i] == Depleted(s.products[i], now))
    ensures now - s.lastDepletion < DepletionInterval ==> r == s
    ensures (forall i :: 0 <= i < |s.products| ==> s.products[i].stock <= 0) ==> r == s
    ensures now - s.lastDepletion >= DepletionInterval && InStock(s.products) != [] ==>
      && r.lastDepletion == now
      && exists i :: 0 <= i < |s.products| && s.products[i].stock > 0 &&
           r.products == s.products[i := Depleted(s.products[i], now)]
  {
    var candidates := InStock(s.products);
    if now - s.lastDepletion >= DepletionInterval && candidates != [] then
      var i := candidates[pick];
      s.(products := s.products[i := Depleted(s.products[i], now)], lastDepletion := now)
    else s
  }

  /** Every in-stock product is a possible victim of a depletion event: the
      `pick` parameter ranges over all of the random choice's outcomes. */
  lemma EveryInStockProductCanBeDepleted(s: Store, now: int, i: nat)
    requires now - s.lastDepletion >= DepletionInterval
    requires i < |s.products| && s.products[i].stock > 0
    ensures exists pick: nat ::
      && pick < |InStock(s.products)|
      && DepleteRandomly(s, now, pick).products == s.products[i := Depleted(s.products[i], now)]
  {
    var candidates := InStock(s.products);
    var k :| 0 <= k < |candidates| && candidates[k] == i;
    assert DepleteRandomly(s, now, k).products == s.products[i := Depleted(s.products[i], now)];
  }

  /** One poll of the stock engine, in the order the control loop runs it:
      restocking first, then the depletion event over the refreshed catalog. */
  function Tick(s: Store, now: int, amounts: seq<int>, pick: nat): (r: Store)
    requires RestockAmounts(amounts, |s.products|)
    requires var ps := RestockProducts(s.products, now, amounts);
      InStock(ps) != [] ==> pick < |InStock(ps)|
    ensures r.users == s.users && r.current == s.current && r.cart == s.cart
    ensures SameCatalog(s.products, r.products)
  {
    DepleteRandomly(s.(products := RestockProducts(s.products, now, amounts)), now, pick)
  }

  /** Once the interval has passed and the restock leaves something in stock,
      the poll's depletion event fires: it records `now` as the time of the
      last event and sells out one product that was in stock after the
      restock. */
  lemma TickDepletes(s: Store, now: int, amounts: seq<int>, pick: nat)
    requires RestockAmounts(amounts, |s.products|)
    requires var ps := RestockProducts(s.products, now, amounts);
      InStock(ps) != [] ==> pick < |InStock(ps)|
    requires now - s.lastDepletion >= DepletionInterval
    requires InStock(RestockProducts(s.products, now, amounts)) != []
    ensures var ps, r := RestockProducts(s.products, now, amounts), Tick(s, now, amounts, pick);
      && r.lastDepletion == now
      && exists i :: 0 <= i < |ps| && ps[i].stock > 0 && r.products == ps[i := Depleted(ps[i], now)]
  {
  }

  /** Within one poll, a product that was due is refilled within bounds
      (and may then be chosen by the depletion event that follows). */
  lemma TickRestocksDue(s: Store, now: int, amounts: seq<int>, pick: nat, i: nat)
    requires RestockAmounts(amounts, |s.products|)
    requires var ps := RestockProducts(s.products, now, amounts);
      InStock(ps) != [] ==> pick < |InStock(ps)|
    requires i < |s.products| && Due(s.products[i], now)
    ensures var r := Tick(s, now, amounts, pick);
      || (MinRestock <= r.products[i].stock <= MaxRestock && r.products[i].restockTime == None)
      || r.products[i] == Depleted(s.products[i], now)
  {
  }

  /** Within one poll, a product that was not due is either untouched or, if it
      was in stock, depleted; in particular a product depleted in this poll is
      not refilled in the same poll. */
  lemma TickOtherwise(s: Store, now: int, amounts: seq<int>, pick: nat, i: nat)
    requires RestockAmounts(amounts, |s.products|)
    requires var ps := RestockProducts(s.products, now, amounts);
      InStock(ps) != [] ==> pick < |InStock(ps)|
    requires i < |s.products| && !Due(s.products[i], now)
    ensures var r := Tick(s, now, amounts, pick);
      || r.products[i] == s.products[i]
      || (s.products[i].stock > 0 && r.products[i] == Depleted(s.products[i], now))
  {
  }

  /** A product never has stock and a timer at once, and a sold-out product
      always has its timer set (a timer set at time 0 still reads as unset to
      `Armed`). An oversold product, with negative stock, may or may not carry
      a timer. */
  predicate Coherent(p: Product)
  {
    && (p.stock > 0 ==> p.restockTime.None?)
    && (p.stock == 0 ==> p.restockTime.Some?)
  }

  predicate AllCoherent(ps: seq<Product>)
  {
    forall i :: 0 <= i < |ps| ==> Coherent(ps[i])
  }

  lemma TickKeepsCoherent(s: Store, now: int, amounts: seq<int>, pick: nat)
    requires RestockAmounts(amounts, |s.products|)
    requires var ps := RestockProducts(s.products, now, amounts);
      InStock(ps) != [] ==> pick < |InStock(ps)|
    requires AllCoherent(s.products)
    ensures AllCoherent(Tick(s, now, amounts, pick).products)
  {
    var restocked := RestockProducts(s.products, now, amounts);
    assert AllCoherent(restocked);
    var r := Tick(s, now, amounts, pick);
    assert r == DepleteRandomly(s.(products := restocked), now, pick);
  }

  /** An oversold product is never refilled or depleted by the stock engine:
      its negative stock and its timer stay exactly as they are. */
  lemma TickLeavesOversold(s: Store, now: int, amounts: seq<int>, pick: nat, i: nat)
    requires RestockAmounts(amounts, |s.products|)
    requires var ps := RestockProducts(s.products, now, amounts);
      InStock(ps) != [] ==> pick < |InStock(ps)|
    requires i < |s.products| && s.products[i].stock < 0
    ensures Tick(s, now, amounts, pick).products[i] == s.products[i]
  {
  }
}
