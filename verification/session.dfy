/** The control loop: the invariant every reachable store keeps, the two-state
    menu (guest or signed in), and one iteration of the loop, which polls the
    stock engine and then carries out the chosen menu entry. */
module Session {
  import opened Model
  import opened Shopping
  import opened Stock
  import opened Checkout
  import opened Accounts

  /** What holds of every store the session can reach: the signed-in user is
      registered, usernames are unique, the cart holds only catalog products
      in positive quantities, and every product is coherent. */
  predicate Valid(s: Store)
  {
    && (s.current.Some? ==> s.current.value < |s.users|)
    && UniqueUsernames(s.users)
    && CartKnown(s.products, s.cart)
    && (forall pid :: pid in s.cart ==> s.cart[pid] > 0)
    && AllCoherent(s.products)
  }

  lemma InitValid(now: int)
    ensures Valid(Init(now))
  {
  }

  lemma AddToCartKeepsValid(s: Store, pid: int, qty: int)
    requires Valid(s)
    requires AddToCart(s, pid, qty).Success?
    ensures Valid(AddToCart(s, pid, qty).value)
  {
  }

  lemma CommitKeepsValid(s: Store, total: int, now: int)
    requires Valid(s) && s.current.Some?
    ensures Valid(Commit(s, total, now))
  {
    PurchaseKeepsCoherent(s.products, s.cart, now);
    var r := Commit(s, total, now);
    assert forall i :: 0 <= i < |r.users| ==> r.users[i].username == s.users[i].username;
  }

  lemma TickKeepsValid(s: Store, now: int, amounts: seq<int>, pick: nat)
    requires Valid(s)
    requires RestockAmounts(amounts, |s.products|)
    requires var ps := RestockProducts(s.products, now, amounts);
      InStock(ps) != [] ==> pick < |InStock(ps)|
    ensures Valid(Tick(s, now, amounts, pick))
  {
    TickKeepsCoherent(s, now, amounts, pick);
    var r := Tick(s, now, amounts, pick);
    forall pid | pid in r.cart
      ensures FindProduct(r.products, pid).Some?
    {
      FindProductSameCatalog(s.products, r.products, pid);
    }
  }

  lemma AccountsKeepValid(s: Store, username: string, password: string)
    requires Valid(s)
    ensures SignUp(s, username, password).Success? ==> Valid(SignUp(s, username, password).value)
    ensures SignIn(s, username, password).Success? ==> Valid(SignIn(s, username, password).value)
    ensures Valid(Logout(s)) && Valid(ClearCart(s))
  {
  }

  /** One entry typed at the catalog view: a product id and quantity, or
      input that did not parse as numbers (reported, nothing added). */
  datatype AddRequest = Add(pid: int, qty: int) | Unparsable

  /** The catalog view: each request is tried in turn against the same
      catalog (the stock engine does not run while browsing). Only the cart
      changes, and every line it changes ends at or below its product's stock. */
  function Browse(s: Store, requests: seq<AddRequest>): (r: Store)
    ensures r.products == s.products && r.users == s.users
    ensures r.current == s.current && r.lastDepletion == s.lastDepletion
    ensures s.cart.Keys <= r.cart.Keys
    ensures forall pid :: pid in r.cart && (pid !in s.cart || r.cart[pid] != s.cart[pid]) ==>
      FindProduct(s.products, pid).Some? && r.cart[pid] <= s.products[FindProduct(s.products, pid).value].stock
    ensures Valid(s) ==> Valid(r)
    decreases |requests|
  {
    if |requests| == 0 then s
    else
      var next :=
        match requests[0]
        case Unparsable => s
        case Add(pid, qty) =>
          match AddToCart(s, pid, qty)
          case Success(t) => t
          case Failure(_) => s;
      Browse(next, requests[1..])
  }

  /** A single add request in the catalog view is exactly one add-to-cart:
      its outcome is kept, or the store is left as it was. */
  lemma BrowseOne(s: Store, pid: int, qty: int)
    ensures Browse(s, [Add(pid, qty)]) == Settle(s, AddToCart(s, pid, qty))
  {
  }

  /** The session state that selects the menu. */
  datatype Mode = Guest | SignedIn

  function ModeOf(s: Store): (m: Mode)
    ensures m == SignedIn <==> s.current.Some?
  {
    if s.current.Some? then SignedIn else Guest
  }

  /** The main menu keys: 1, 2, 3, 4, Q, and anything else. */
  datatype Key = BrowseKey | CartKey | Key3 | Key4 | QuitKey | OtherKey

  datatype Action = BrowseProducts | OpenCart | ShowProfile | SignInPrompt | LogoutNow | SignUpPrompt | Exit | Invalid

  /** The menu is polymorphic in keys 3 and 4 only: a guest is offered sign-in
      and sign-up there, a signed-in user the profile and logout. */
  function MenuAction(m: Mode, k: Key): (a: Action)
    ensures a == SignInPrompt <==> m == Guest && k == Key3
    ensures a == SignUpPrompt <==> m == Guest && k == Key4
    ensures a == ShowProfile <==> m == SignedIn && k == Key3
    ensures a == LogoutNow <==> m == SignedIn && k == Key4
    ensures a == Invalid <==> k == OtherKey
    ensures a == Exit <==> k == QuitKey
    ensures a == BrowseProducts <==> k == BrowseKey
    ensures a == OpenCart <==> k == CartKey
  {
    match k
    case BrowseKey => BrowseProducts
    case CartKey => OpenCart
    case Key3 => (match m case SignedIn => ShowProfile case Guest => SignInPrompt)
    case Key4 => (match m case SignedIn => LogoutNow case Guest => SignUpPrompt)
    case QuitKey => Exit
    case OtherKey => Invalid
  }

  /** Everything the user types during one iteration, beyond the menu key:
      the catalog view's add requests, the cart view's option and checkout
      confirmation, and the credentials the sign-in or sign-up prompt reads. */
  datatype Input = Input(
    key: Key,
    adds: seq<AddRequest>,
    cartChoice: CartChoice,
    confirmed: bool,
    username: string,
    password: string)

  /** Keep the new store of a successful operation, or the old one. */
  function Settle(s: Store, r: Result<Store, StoreError>): Store
  {
    match r
    case Success(t) => t
    case Failure(_) => s
  }

  /** Oversold products only ever lose stock in one step. */
  lemma PurchaseNeverRaisesOversold(ps: seq<Product>, cart: Cart, now: int, i: nat)
    requires forall pid :: pid in cart ==> cart[pid] > 0
    requires i < |ps| && ps[i].stock < 0
    ensures Purchase(ps, cart, now)[i].stock <= ps[i].stock
  {
    if ps[i].id in cart {
      var f := FindProduct(ps, ps[i].id);
      assert f.Some?;
    }
  }

  /** What carrying out the menu entry `input.key` selects does to a valid
      store `s` at time `now`, entry by entry: browsing applies the add
      requests; the cart view does nothing for an empty cart or on going
      back, clears on request, and on checkout commits the live-price total
      when a signed-in user confirms; sign-in and sign-up keep their outcome
      or the old store; logout logs out; the profile, quit and an unknown key
      leave the store as it is. */
  ghost predicate Dispatched(s: Store, now: int, input: Input, r: Store)
    requires Valid(s)
  {
    match MenuAction(ModeOf(s), input.key)
    case BrowseProducts => r == Browse(s, input.adds)
    case OpenCart =>
      if s.cart == map[] || input.cartChoice == Back then r == s
      else if input.cartChoice == ClearAll then r == ClearCart(s)
      else if s.current.Some? && input.confirmed then r == Commit(s, CartSum(s.products, s.cart), now)
      else r == s
    case SignInPrompt => r == Settle(s, SignIn(s, input.username, input.password))
    case SignUpPrompt => r == Settle(s, SignUp(s, input.username, input.password))
    case LogoutNow => r == Logout(s)
    case ShowProfile => r == s
    case Exit => r == s
    case Invalid => r == s
  }

  /** Carry out the menu entry `input.key` selects in the store's current
      mode, as `Dispatched` describes. The store stays valid; a signed-in
      user can neither register nor switch accounts (only log out); a guest
      never changes an existing account; an oversold product never regains
      stock. */
  method Handle(s: Store, now: int, input: Input) returns (r: Store)
    requires Valid(s)
    ensures Valid(r)
    ensures Dispatched(s, now, input, r)
    ensures SameCatalog(s.products, r.products)
    ensures ModeOf(s) == SignedIn ==> |r.users| == |s.users| && (r.current == s.current || r.current == None)
    ensures ModeOf(s) == Guest ==> s.users <= r.users
    ensures forall i :: 0 <= i < |s.products| && s.products[i].stock < 0 ==>
      r.products[i].stock <= s.products[i].stock
  {
    match MenuAction(ModeOf(s), input.key) {
      case BrowseProducts =>
        r := Browse(s, input.adds);
      case OpenCart =>
        r := ViewCart(s, input.cartChoice, input.confirmed, now);
        if s.cart != map[] && input.cartChoice == CheckOut && s.current.Some? && input.confirmed {
          CommitKeepsValid(s, CartSum(s.products, s.cart), now);
          forall i | 0 <= i < |s.products| && s.products[i].stock < 0
            ensures r.products[i].stock <= s.products[i].stock
          {
            PurchaseNeverRaisesOversold(s.products, s.cart, now, i);
          }
        }
      case ShowProfile =>
        r := s;
      case SignInPrompt =>
        AccountsKeepValid(s, input.username, input.password);
        r := Settle(s, SignIn(s, input.username, input.password));
      case LogoutNow =>
        AccountsKeepValid(s, input.username, input.password);
        r := Logout(s);
      case SignUpPrompt =>
        AccountsKeepValid(s, input.username, input.password);
        r := Settle(s, SignUp(s, input.username, input.password));
      case Exit =>
        r := s;
      case Invalid =>
        r := s;
    }
  }

  /** One iteration of the control loop: the stock engine is polled at time
      `now` (restock, then the depletion event), then the menu entry selected
      by `input.key` for the current mode is carried out at the time `later`
      the user's input completes it (a separate wall-clock read, so no order
      between the two is assumed); `quit` reports the quit key. */
  method Step(s: Store, now: int, later: int, amounts: seq<int>, pick: nat, input: Input)
    returns (r: Store, quit: bool)
    requires Valid(s)
    requires RestockAmounts(amounts, |s.products|)
    requires var ps := RestockProducts(s.products, now, amounts);
      InStock(ps) != [] ==> pick < |InStock(ps)|
    ensures Valid(r)
    ensures quit <==> input.key == QuitKey
    ensures var t := Tick(s, now, amounts, pick);
      Valid(t) && Dispatched(t, later, input, r)
    ensures SameCatalog(s.products, r.products)
    ensures ModeOf(s) == SignedIn ==> |r.users| == |s.users| && (r.current == s.current || r.current == None)
    ensures ModeOf(s) == Guest ==> s.users <= r.users
    ensures forall i :: 0 <= i < |s.products| && s.products[i].stock < 0 ==>
      r.products[i].stock <= s.products[i].stock
  {
    var t := Tick(s, now, amounts, pick);
    TickKeepsValid(s, now, amounts, pick);
    forall i | 0 <= i < |s.products| && s.products[i].stock < 0
      ensures t.products[i] == s.products[i]
    {
      TickLeavesOversold(s, now, amounts, pick, i);
    }
    r := Handle(t, later, input);
    HandleAfterPoll(s, t, r);
    quit := input.key == QuitKey;
  }

  /** The guarantees of `Handle` carry over from the polled store back to the
      store before the poll, since a poll touches only stock, timers and the
      depletion time, and never an oversold product. */
  lemma HandleAfterPoll(s: Store, t: Store, r: Store)
    requires t.users == s.users && t.current == s.current
    requires SameCatalog(s.products, t.products)
    requires forall i :: 0 <= i < |s.products| && s.products[i].stock < 0 ==> t.products[i] == s.products[i]
    requires SameCatalog(t.products, r.products)
    requires ModeOf(t) == SignedIn ==> |r.users| == |t.users| && (r.current == t.current || r.current == None)
    requires ModeOf(t) == Guest ==> t.users <= r.users
    requires forall i :: 0 <= i < |t.products| && t.products[i].stock < 0 ==>
      r.products[i].stock <= t.products[i].stock
    ensures SameCatalog(s.products, r.products)
    ensures ModeOf(s) == SignedIn ==> |r.users| == |s.users| && (r.current == s.current || r.current == None)
    ensures ModeOf(s) == Guest ==> s.users <= r.users
    ensures forall i :: 0 <= i < |s.products| && s.products[i].stock < 0 ==>
      r.products[i].stock <= s.products[i].stock
  {
  }
}
