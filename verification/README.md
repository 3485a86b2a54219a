# Terminal store: a Dafny model of the in-memory store state machine

The system is a menu-driven terminal shop. One process keeps its whole state in
memory. That state is a fixed catalog of five products, a registry of user
accounts, at most one signed-in user, a session cart, and the time of the last
random depletion event. On every pass of the main loop, the store first
refills sold-out products whose restock delay has elapsed. It then, at most
once every 120 seconds, sells out one random in-stock product. After that it
carries out the menu entry the user picks. The entries are browsing and adding
to the cart, the cart view (checkout or clear), sign-in or sign-up for a guest,
and profile or logout for a signed-in user.

This project models that state machine as pure functions over immutable
datatypes (`Model`):

- `Product`, `User`, `Order` and `Store` mirror the source's records.
- The cart is a `map<int, int>`.
- The signed-in user is an index into the user list.
- Prices and totals are integer cents. Timestamps are abstract integers.
- The clock is a parameter of every operation that reads it. One loop iteration
  takes two instants: `now` for the stock poll at its start, and `later` for
  the menu entry the user's input then completes. These are separate
  wall-clock reads, and no order between them is assumed.
- Each random draw is a parameter with the bounds the draw guarantees: the
  restock amount in [5, 20] per product, and the index of the chosen product
  among the in-stock ones.
- Operations that can be refused return `Result<Store, StoreError>`. On a
  `Failure` the session keeps its previous store, as the source does after
  printing its message.

Modules:

- `Model`: the data types, the seed catalog, and product and user lookup.
- `Sums`: order-independent sums over a map, used for the cart total.
- `Shopping`: add-to-cart, the cart total, and clearing the cart.
- `Stock`: restocking, random depletion, and one poll of the stock engine
  (`Tick`).
- `Checkout`: selling the cart, recording the order, and the cart view.
- `Accounts`: sign-up, sign-in, logout, and the profile.
- `Session`: the store invariant `Valid`, the Guest/SignedIn menu, the browse
  loop, and one iteration of the main loop (`Step`).
- `Scenarios`: concrete walk-throughs from the seed store.

Four behaviours of the store are easy to misread:

- The loop polls restocking *before* the depletion event (main.py:235-236). A
  product sold out by the event stays pending during that poll.
- The time of the last depletion is updated only when a product is actually
  sold out (main.py:40-44), not on every check.
- "Stock is zero exactly when a restock timer is pending" is not an invariant.
  Checkout subtracts the cart quantity without re-checking stock
  (main.py:196-200). A product can be carted, then sold out by the random
  event, then checked out. It is left at negative stock with its timer still
  armed (`Scenarios.CheckoutOversells`). After that the stock engine never
  touches it again (`Stock.TickLeavesOversold`, `Session.Step`). The invariant
  that does hold is `Stock.Coherent`: a product with stock has no pending
  timer, and a sold-out product has a timer set. `Session.Valid` keeps it, together
  with the cart and account invariants, across every loop iteration.
- The source tests the stored restock timestamp for truth (main.py:51). A timer
  armed at time 0 therefore reads as unset (`Stock.Armed`).

## Model

| member | source | states |
|---|---|---|
| Model.Init | main.py:24-35 | The store starts with the five seed products, all in stock with no timer, no users, a guest session, an empty cart, and the depletion clock at `now` |
| Model.FindProduct | main.py:46-47 | Returns the first catalog position whose id is `pid`; returns None exactly when no product has that id |
| Model.FindUser | main.py:65 | Returns the first registered user with exactly this username; returns None exactly when nobody has it |
| Model.FindProductSameCatalog | main.py:46-47 | A lookup gives the same position in any catalog that differs only in stock and timers, so stock changes never redirect a cart line |
| Shopping.AddToCart | main.py:132-147 | Succeeds iff the product exists, 0 < qty <= stock, and held + qty <= stock. On success only the cart changes: entry `pid` becomes held + qty (at most the stock), the key set grows by `pid`, other entries are unchanged. Each refusal is exactly one error, stated as an iff: unknown id, non-positive quantity, quantity over the stock (reporting the stock), or held plus quantity over the stock (reporting the held amount and the stock) |
| Shopping.ClearCart | main.py:176-178 | The cart becomes empty and nothing else changes |
| Shopping.ClearCartIdempotent | main.py:177 | Clearing twice is the same as clearing once |
| Shopping.Lines | main.py:162-164 | There is one line subtotal per carted id |
| Shopping.CartTotal | main.py:159-165 | Summing price times quantity over the cart, visited in any order, yields the order-independent reference total `CartSum` |
| Shopping.EmptyCartTotal | main.py:159-165 | The empty cart totals zero |
| Shopping.SetLineTotal | main.py:159-165 | Changing one cart line changes the total by exactly that line's change of subtotal |
| Shopping.AddToCartTotal | main.py:145 | A successful add raises the cart total by exactly the product's price times the added quantity |
| Shopping.CartSumNonNegative | main.py:159-165 | With non-negative prices and positive quantities the total is never negative |
| Stock.RestockProducts | main.py:49-55 | Each product that is sold out, has its timer armed, and has waited at least its delay gets the drawn amount (within [5, 20]) and its timer cleared. Every other product (in stock, oversold, or still waiting) is unchanged. Afterwards no product is due |
| Stock.RestockIdempotent | main.py:49-55 | A second restock pass at the same moment changes nothing |
| Stock.InStock | main.py:39 | Lists exactly the positions of products with positive stock, in catalog order |
| Stock.Depleted | main.py:42-43 | A depleted product has stock 0 and its timer armed at `now`; its identity is kept |
| Stock.DepleteRandomly | main.py:37-44 | Before 120 s since the last event, or with nothing in stock, nothing changes. Otherwise exactly one product that had positive stock is depleted and the event time becomes `now`. Users, session and cart are never touched |
| Stock.EveryInStockProductCanBeDepleted | main.py:41 | Every in-stock product is a possible outcome of the random choice |
| Stock.Tick | main.py:235-236 | One poll (restock, then the depletion event) touches only the catalog's stock and timers, and the depletion time |
| Stock.TickDepletes | main.py:235-236 | Once 120 s have passed and the restock leaves a product in stock, the poll records `now` as the depletion time and sells out exactly one product that was in stock after the restock |
| Stock.TickRestocksDue | main.py:235-236 | Within one poll a due product is either refilled within [5, 20] with no timer, or refilled and then chosen by the depletion event |
| Stock.TickOtherwise | main.py:235-236 | Within one poll a product that was not due is either untouched, or (if it was in stock) depleted. A product depleted in a poll is not refilled in that poll |
| Stock.TickKeepsCoherent | main.py:37-55 | A poll keeps every product coherent: stock means no timer, and sold out means a set timer |
| Stock.TickLeavesOversold | main.py:37-55 | The stock engine never touches a product with negative stock |
| Checkout.Sell | main.py:197-200 | Selling `qty` lowers the stock by exactly `qty` with no floor at zero. The timer is armed at `now` exactly when the stock lands on zero; otherwise it is kept |
| Checkout.Purchase | main.py:196-200 | For each carted id, the product it resolves to loses exactly the cart quantity, and its timer is armed iff it reaches zero. Products whose id is not carted are unchanged. Catalog identity is kept |
| Checkout.SellCart | main.py:196-200 | Walking the cart entries one by one in any order gives exactly the catalog `Purchase` describes |
| Checkout.OversellKeepsTimer | main.py:198-200 | Buying a product that is already sold out leaves it at negative stock, keeping its old timer |
| Checkout.PurchaseKeepsCoherent | main.py:196-200 | Selling a cart of positive quantities keeps every product coherent |
| Checkout.Commit | main.py:192-209 | A confirmed checkout sells the cart and appends exactly one order to the current user's history, with the date `now`, the given total, and the pre-checkout cart as its items. It empties the cart and leaves the other users, the session and the depletion time unchanged |
| Checkout.Checkout | main.py:184-214 | A guest is refused (NotSignedIn). A user who does not confirm is refused (CheckoutCancelled). Otherwise the checkout commits |
| Checkout.ViewCart | main.py:149-182 | An empty cart, or going back, changes nothing, so no order is ever recorded from an empty cart. Clearing empties the cart. A confirmed checkout by a signed-in user commits the live-price cart total, and otherwise nothing changes |
| Accounts.SignUp | main.py:78-91 | Refused (UsernameTaken) iff the username is already registered. Otherwise appends one user with an empty history and changes nothing else (no automatic sign-in). It keeps usernames unique |
| Accounts.SignIn | main.py:59-76 | Succeeds iff the first user with that exact username has exactly that password. The current user then becomes that user and nothing else changes. Otherwise it is refused with one generic InvalidCredentials |
| Accounts.SignInExact | main.py:65-70 | With unique usernames, sign-in succeeds iff some user has both this username and this password, and the user signed in has that username |
| Accounts.SignUpThenSignIn | main.py:65-89 | After registering, signing in with the same credentials succeeds and signs in the new user |
| Accounts.SignUpThenWrongPassword | main.py:65-89 | After registering, signing in with any other password is refused |
| Accounts.Logout | main.py:93-95 | Nobody is signed in, the cart is empty, and the catalog and accounts are unchanged |
| Accounts.Reversed | main.py:225 | Reversal keeps the length and puts element k at position n-1-k |
| Accounts.RecentOrders | main.py:225 | Returns min(5, n) orders, the most recent first |
| Accounts.ViewProfile | main.py:216-225 | A guest is refused (NotSignedIn). Otherwise it reports the user's name, the order count, and the min(5, n) most recent orders, newest first |
| Session.InitValid | main.py:24-35 | The seed store satisfies the store invariant |
| Session.AddToCartKeepsValid | main.py:141-145 | A successful add keeps the invariant: the cart still holds only catalog ids in positive quantities |
| Session.CommitKeepsValid | main.py:196-209 | A confirmed checkout keeps the invariant |
| Session.TickKeepsValid | main.py:235-236 | A stock poll keeps the invariant |
| Session.AccountsKeepValid | main.py:78-95 | Sign-up, sign-in, logout and clearing the cart keep the invariant (unique usernames, signed-in user registered) |
| Session.Browse | main.py:118-130 | A series of add requests changes only the cart. It never removes a cart line, and every line it changes ends at or below its product's stock. It keeps the invariant |
| Session.BrowseOne | main.py:121-128 | One add request in the catalog view is exactly one add-to-cart: its outcome is kept, or the store is unchanged |
| Session.ModeOf | main.py:252-257 | The session is SignedIn exactly when a user is signed in |
| Session.MenuAction | main.py:259-287 | Key 3 is sign-in for a guest and the profile for a signed-in user. Key 4 is sign-up for a guest and logout for a signed-in user. Keys 1, 2 and Q mean browse, cart and quit in both modes, and any other key is invalid |
| Session.PurchaseNeverRaisesOversold | main.py:196-200 | Selling a cart never raises the stock of a product with negative stock |
| Session.Handle | main.py:270-287 | The selected entry is carried out (`Dispatched`): browsing applies the add requests; the cart view does nothing for an empty cart or Back, clears on request, and commits the live-price total on a confirmed checkout by a signed-in user; sign-in and sign-up keep their outcome or the old store; logout logs out; profile, quit and unknown keys change nothing. The invariant and catalog identity are kept. A signed-in user cannot register or switch accounts. A guest never changes an existing account. An oversold product never regains stock |
| Session.Step | main.py:233-287 | One loop iteration first polls the stock engine at `now` (`Tick`: restock, then the depletion event), then carries out the selected entry on the polled store at instant `later`, exactly as `Dispatched` describes. It keeps the invariant and reports quit exactly for the quit key, with the same mode guarantees as `Handle`. An oversold product never regains stock |
| Scenarios.WaterBottleIsFirst | main.py:25-31 | Product 1 is the first catalog entry |
| Scenarios.AddWaterBottles | main.py:132-147 | From the seed store, adding 25 of the 20 water bottles is refused with the available stock, and adding 5 succeeds |
| Scenarios.CartedTotal | main.py:159-165 | Five bottles at 15.00 total 75.00 |
| Scenarios.AliceSignsIn | main.py:59-91 | A new account registers, signs in with the same password, and is refused with a wrong one |
| Scenarios.AliceChecksOut | main.py:184-209 | The confirmed checkout leaves 15 bottles, an empty cart, and one order holding {1: 5} |
| Scenarios.DepletionHitsCartedBottles | main.py:37-44 | At 120 s the random event can sell out the carted bottles |
| Scenarios.CheckoutOversells | main.py:196-200 | Checking out after that leaves stock -5 with the timer still armed |

## Left out

- Terminal I/O is not modelled: printing, prompts, screen clearing, console sizing, pauses for pacing, the farewell, and process exit. Messages become `StoreError` values.
- The catalog and loop rendering is not modelled (main.py:99-117, main.py:237-269). This includes the restock countdown text, which is presentation only.
- The debug echo of passwords in sign-in and sign-up is not modelled. It is output, not behaviour.
- Menu input parsing (`input().upper()`) is not modelled. Keys are the `Session.Key` datatype.
- In the catalog view, input that is not a number is one `Unparsable` request.
- In the cart view, an unrecognised option re-prompts without any state change, so only the three real options are modelled.
- The profile's per-line product names are not modelled; they are a catalog lookup for display.
- Float prices and currency formatting are not modelled. Prices are integer cents.
- `time.strftime` date strings are not modelled. The order date is the abstract `now`.
- Wall-clock reads and the `random` module are not modelled. They are the parameters `now`, `later`, `amounts` and `pick`.
- Stock.Tick: the model reads the clock once per poll, but the source's reads within one poll can be seconds apart. The source reads the clock for every sold-out product whose timer is set (main.py:52), and pauses one second after each refill (main.py:57). That pause shifts every later read in the same poll, including the reads for products further down the catalog and the depletion event's reads (main.py:38, 43-44). So the source can see a later product come due, or the 120-second window pass, where the model's single `now` does not.
- Checkout.Commit: the model uses one instant for the checkout's restock timer and the order date. The source reads the clock separately for each (main.py:200, main.py:203), a few statements apart.
- `Checkout.Checkout`, `Checkout.Commit`, `Checkout.ViewCart`, `Shopping.CartTotal`: they require every carted id to name a catalog product. The source would raise on a missing product there. `Session.Valid` shows every reachable cart meets this.
- Several members require the signed-in index to be in range. The source holds a reference to the user object. `Session.Valid` shows the index is always in range.
