/** Accounts and the session: registration, sign-in by exact credentials,
    logout, and the profile's recent-order listing. */
module Accounts {
  import opened Model

  /** No two registered users share a username. */
  predicate UniqueUsernames(users: seq<User>)
  {
    forall i, j :: 0 <= i < j < |users| ==> users[i].username != users[j].username
  }

  predicate Registered(users: seq<User>, name: string)
  {
    exists i :: 0 <= i < |users| && users[i].username == name
  }

  /** Register a new account with an empty order history. Refused when the
      username is taken (exact, case-sensitive match). Registration does not
      sign anyone in. */
  function SignUp(s: Store, username: string, password: string): (r: Result<Store, StoreError>)
    ensures r.Failure? <==> Registered(s.users, username)
    ensures r.Failure? ==> r.error == UsernameTaken
    ensures r.Success? ==>
      && r.value.users == s.users + [User(username, password, [])]
      && r.value.current == s.current && r.value.cart == s.cart
      && r.value.products == s.products && r.value.lastDepletion == s.lastDepletion
    ensures r.Success? && UniqueUsernames(s.users) ==> UniqueUsernames(r.value.users)
  {
    if FindUser(s.users, username).Some? then Failure(UsernameTaken)
    else Success(s.(users := s.users + [User(username, password, [])]))
  }

  /** Sign in: the first user with exactly this username becomes the current
      user when the password matches exactly; otherwise the attempt is refused
      without saying which of the two was wrong. */
  function SignIn(s: Store, username: string, password: string): (r: Result<Store, StoreError>)
    ensures r.Success? <==>
      FindUser(s.users, username).Some? && s.users[FindUser(s.users, username).value].password == password
    ensures r.Failure? ==> r.error == InvalidCredentials
    ensures r.Success? ==>
      && r.value.current == FindUser(s.users, username)
      && r.value.users == s.users && r.value.cart == s.cart
      && r.value.products == s.products && r.value.lastDepletion == s.lastDepletion
  {
    match FindUser(s.users, username)
    case Some(i) =>
      if s.users[i].password == password then Success(s.(current := Some(i)))
      else Failure(InvalidCredentials)
    case None => Failure(InvalidCredentials)
  }

  /** With unique usernames, sign-in succeeds exactly when some registered user
      has both this username and this password, and that user is signed in. */
  lemma SignInExact(s: Store, username: string, password: string)
    requires UniqueUsernames(s.users)
    ensures SignIn(s, username, password).Success? <==>
      exists i :: 0 <= i < |s.users| && s.users[i].username == username && s.users[i].password == password
    ensures SignIn(s, username, password).Success? ==>
      var c := SignIn(s, username, password).value.current;
      c.Some? && c.value < |s.users| && s.users[c.value].username == username
  {
    if exists i :: 0 <= i < |s.users| && s.users[i].username == username && s.users[i].password == password {
      var i :| 0 <= i < |s.users| && s.users[i].username == username && s.users[i].password == password;
      var f := FindUser(s.users, username);
      assert f.Some?;
    }
  }

  /** Registering and then signing in with the same credentials signs the new
      user in. */
  lemma SignUpThenSignIn(s: Store, username: string, password: string)
    requires SignUp(s, username, password).Success?
    ensures var t := SignUp(s, username, password).value;
      && SignIn(t, username, password).Success?
      && SignIn(t, username, password).value.current == Some(|s.users|)
  {
    var t := SignUp(s, username, password).value;
    var f := FindUser(t.users, username);
    assert t.users[|s.users|].username == username;
    assert f.Some?;
  }

  /** Registering and then signing in with any other password is refused and
      leaves the session as it was. */
  lemma SignUpThenWrongPassword(s: Store, username: string, password: string, other: string)
    requires SignUp(s, username, password).Success?
    requires other != password
    ensures SignIn(SignUp(s, username, password).value, username, other) == Failure(InvalidCredentials)
  {
    SignUpThenSignIn(s, username, password);
  }

  /** Log out: nobody is signed in and the cart is emptied. */
  function Logout(s: Store): (r: Store)
    ensures r.current == None && r.cart == map[]
    ensures r.users == s.users && r.products == s.products && r.lastDepletion == s.lastDepletion
  {
    s.(current := None, cart := map[])
  }

  /** How many orders the profile lists. */
  const RecentCount := 5

  /** The last `RecentCount` orders (all of them when there are fewer), most
      recent first. */
  function RecentOrders(orders: seq<Order>): (r: seq<Order>)
    ensures |r| == if |orders| < RecentCount then |orders| else RecentCount
    ensures forall k :: 0 <= k < |r| ==> r[k] == orders[|orders| - 1 - k]
  {
    var from := if |orders| < RecentCount then 0 else |orders| - RecentCount;
    Reversed(orders[from..])
  }

  function Reversed<T>(xs: seq<T>): (r: seq<T>)
    ensures |r| == |xs|
    ensures forall k :: 0 <= k < |xs| ==> r[k] == xs[|xs| - 1 - k]
  {
    if |xs| == 0 then [] else [xs[|xs| - 1]] + Reversed(xs[..|xs| - 1])
  }

  /** What the profile page shows: the user, the number of orders, and the
      recent orders. */
  datatype Profile = Profile(username: string, orderCount: nat, recent: seq<Order>)

  function ViewProfile(s: Store): (r: Result<Profile, StoreError>)
    requires s.current.Some? ==> s.current.value < |s.users|
    ensures r.Failure? <==> s.current.None?
    ensures r.Failure? ==> r.error == NotSignedIn
    ensures r.Success? ==>
      var u := s.users[s.current.value];
      && r.value.username == u.username
      && r.value.orderCount == |u.orders|
      && |r.value.recent| == (if |u.orders| < RecentCount then |u.orders| else RecentCount)
      && (forall k :: 0 <= k < |r.value.recent| ==> r.value.recent[k] == u.orders[|u.orders| - 1 - k])
  {
    match s.current
    case None => Failure(NotSignedIn)
    case Some(i) =>
      var u := s.users[i];
      Success(Profile(u.username, |u.orders|, RecentOrders(u.orders)))
  }
}
