/** Concrete walk-throughs of the store from its initial state, one step per
    lemma. */
module Scenarios {
  import opened Model
  import opened Sums
  import opened Shopping
  import opened Stock
  import opened Checkout
  import opened Accounts

  /** The seed store with five water bottles (product 1) in the cart. */
  function Carted(): Store
  {
    Init(0).(cart := map[1 := 5])
  }

  /** `Carted` with an account "alice" registered. */
  function AliceRegistered(): Store
  {
    Carted().(users := [User("alice", "pw", [])])
  }

  lemma WaterBottleIsFirst()
    ensures FindProduct(InitialCatalog(), 1) == Some(0)
  {
  }

  /** Asking for 25 of the 20 water bottles is refused; asking for 5 succeeds. */
  lemma AddWaterBottles()
    ensures AddToCart(Init(0), 1, 25) == Failure(InsufficientStock(20))
    ensures AddToCart(Init(0), 1, 5) == Success(Carted())
  {
    WaterBottleIsFirst();
  }

  /** Five bottles at 15.00 total 75.00. */
  lemma CartedTotal()
    ensures CartSum(Carted().products, Carted().cart) == 5 * 1500
  {
    WaterBottleIsFirst();
    assert Lines(Carted().products, Carted().cart) == map[1 := 7500];
    SumOverRemove(map[1 := 7500], {1}, 1);
    assert {1} - {1} == {};
  }

  /** "alice" registers, then signs in with the same password; a wrong password
      is refused. */
  lemma AliceSignsIn()
    ensures SignUp(Carted(), "alice", "pw") == Success(AliceRegistered())
    ensures SignIn(AliceRegistered(), "alice", "pw") == Success(AliceRegistered().(current := Some(0)))
    ensures SignIn(AliceRegistered(), "alice", "wrong") == Failure(InvalidCredentials)
  {
    assert Carted().users == [];
    assert FindUser(Carted().users, "alice") == None;
    assert Carted().users + [User("alice", "pw", [])] == AliceRegistered().users;
    assert FindUser(AliceRegistered().users, "alice") == Some(0);
  }

  /** The confirmed checkout leaves fifteen bottles, an empty cart, and one
      order holding the five bottles. */
  lemma AliceChecksOut()
    ensures var s := Commit(AliceRegistered().(current := Some(0)), 7500, 10);
      && s.products[0].stock == 15
      && s.cart == map[]
      && s.users[0].orders == [Order(10, 7500, map[1 := 5])]
  {
    WaterBottleIsFirst();
  }

  /** Alice signed in with the bottles carted, just after the random event has
      sold out the water bottles at time 120. */
  function DepletedWhileCarted(): Store
  {
    var s := AliceRegistered().(current := Some(0));
    s.(products := s.products[0 := Depleted(s.products[0], 120)], lastDepletion := 120)
  }

  /** At time 120 nothing is due for restock and the first in-stock product
      is the water bottle, so pick 0 depletes it. */
  lemma DepletionHitsCartedBottles()
    ensures Tick(AliceRegistered().(current := Some(0)), 120, [5, 5, 5, 5, 5], 0) == DepletedWhileCarted()
  {
    var s := AliceRegistered().(current := Some(0));
    var ps := RestockProducts(s.products, 120, [5, 5, 5, 5, 5]);
    assert ps == s.products;
    assert InStock(ps)[0] == 0;
  }

  /** Checking out the carted bottles after the depletion oversells them: the
      stock becomes -5 while the restock timer stays armed, so "sold out
      exactly when a timer is pending" is not an invariant of the store. */
  lemma CheckoutOversells()
    ensures var s := Commit(DepletedWhileCarted(), 7500, 121);
      && s.products[0].stock == -5
      && s.products[0].restockTime == Some(120)
  {
    WaterBottleIsFirst();
    assert FindProduct(DepletedWhileCarted().products, 1) == Some(0);
  }
}
