/** Data model of the terminal store: catalog products, registered users, their
    orders, and the single in-memory session that owns them.

    Prices and order totals are integer cents; timestamps are abstract integers
    (seconds) supplied by the caller in place of the wall clock. */
module Model {

  datatype Option<+T> = None | Some(value: T)

  /** Either the new store (Success) or the error the terminal reports; on a
      Failure the session keeps its previous store. */
  datatype Result<+T, +E> = Success(value: T) | Failure(error: E)

  /** The user-recoverable errors the store reports. */
  datatype StoreError =
    | ProductNotFound
    | InvalidQuantity
    | InsufficientStock(available: int)
    | CartExceedsStock(held: int, available: int)
    | NotSignedIn
    | CheckoutCancelled
    | UsernameTaken
    | InvalidCredentials

  /** A catalog entry. `restockTime` is the moment the restock timer was armed
      (None while no restock is pending); `restockTimer` is the delay in seconds. */
  datatype Product = Product(
    id: int,
    name: string,
    price: int,
    stock: int,
    restockTime: Option<int>,
    restockTimer: int)

  /** An order as recorded at checkout: when, how much, and a snapshot of the cart. */
  datatype Order = Order(date: int, total: int, items: map<int, int>)

  /** A registered account; `orders` is in chronological order. */
  datatype User = User(username: string, password: string, orders: seq<Order>)

  /** Product id to desired quantity. */
  type Cart = map<int, int>

  /** The whole session: catalog, registry, signed-in user (an index into
      `users`), cart, and the time of the last random depletion. */
  datatype Store = Store(
    products: seq<Product>,
    users: seq<User>,
    current: Option<nat>,
    cart: Cart,
    lastDepletion: int)

  /** The default restock delay of a product, in seconds. */
  const DefaultRestockTimer := 30

  /** The fixed catalog the store starts with (prices in cents). */
  function InitialCatalog(): seq<Product>
  {
    [ Product(1, "Water Bottle", 1500, 20, None, DefaultRestockTimer),
      Product(2, "Healthy Snacks", 599, 30, None, DefaultRestockTimer),
      Product(3, "Toothbrush Set", 850, 15, None, DefaultRestockTimer),
      Product(4, "Notebook and Pen", 1000, 25, None, DefaultRestockTimer),
      Product(5, "First Aid Kit", 2500, 10, None, DefaultRestockTimer) ]
  }

  /** A fresh store: the seed catalog, nobody registered, a guest session with
      an empty cart, and the depletion clock started at `now`. */
  function Init(now: int): (s: Store)
    ensures |s.products| == 5 && s.users == [] && s.current == None && s.cart == map[]
    ensures forall i :: 0 <= i < |s.products| ==> s.products[i].stock > 0 && s.products[i].restockTime == None
    ensures s.lastDepletion == now
  {
    Store(InitialCatalog(), [], None, map[], now)
  }

  /** The first catalog position holding product `pid`, if any. */
  function FindProduct(ps: seq<Product>, pid: int): (r: Option<nat>)
    ensures r.Some? ==> r.value < |ps| && ps[r.value].id == pid
    ensures r.Some? ==> forall j :: 0 <= j < r.value ==> ps[j].id != pid
    ensures r.None? <==> forall j :: 0 <= j < |ps| ==> ps[j].id != pid
  {
    if |ps| == 0 then None
    else if ps[0].id == pid then Some(0)
    else match FindProduct(ps[1..], pid)
      case None => None
      case Some(i) => Some(i + 1)
  }

  /** The first registered user called `name`, if any. */
  function FindUser(users: seq<User>, name: string): (r: Option<nat>)
    ensures r.Some? ==> r.value < |users| && users[r.value].username == name
    ensures r.Some? ==> forall j :: 0 <= j < r.value ==> users[j].username != name
    ensures r.None? <==> forall j :: 0 <= j < |users| ==> users[j].username != name
  {
    if |users| == 0 then None
    else if users[0].username == name then Some(0)
    else match FindUser(users[1..], name)
      case None => None
      case Some(i) => Some(i + 1)
  }

  /** Two catalogs list the same products in the same order, whatever their
      stock and restock state. */
  predicate SameCatalog(ps: seq<Product>, qs: seq<Product>)
  {
    && |ps| == |qs|
    && forall i :: 0 <= i < |ps| ==>
         && qs[i].id == ps[i].id && qs[i].name == ps[i].name
         && qs[i].price == ps[i].price && qs[i].restockTimer == ps[i].restockTimer
  }

  /** Looking a product up gives the same position in catalogs that differ
      only in stock and restock state. */
  lemma {:induction false} FindProductSameCatalog(ps: seq<Product>, qs: seq<Product>, pid: int)
    requires SameCatalog(ps, qs)
    ensures FindProduct(qs, pid) == FindProduct(ps, pid)
  {
    if |ps| > 0 && ps[0].id != pid {
      assert SameCatalog(ps[1..], qs[1..]);
      FindProductSameCatalog(ps[1..], qs[1..], pid);
    }
  }

  /** Every product id held in the cart names a catalog product. */
  predicate CartKnown(ps: seq<Product>, cart: Cart)
  {
    forall pid :: pid in cart ==> FindProduct(ps, pid).Some?
  }

  /** The quantity of `pid` already in the cart (zero when absent). */
  function Held(cart: Cart, pid: int): int
  {
    if pid in cart then cart[pid] else 0
  }
}
