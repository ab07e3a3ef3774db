/** The Users table served under `/users`: signup inserts a row, login looks one up.
    Passwords are stored and compared as the client sends them, in the column
    `password_hash`; usernames are not checked for uniqueness by the handlers. */
module Users {
  import opened Tables

  /** A row of Users, without its key `user_id`. */
  datatype Credentials = Credentials(username: string, passwordHash: string)

  /** The JSON body of a successful login; no session or token is issued. */
  datatype LoginBody = LoginBody(message: string, userId: int, username: string)

  const Registered := "User registered successfully!"
  const LoggedIn := "Login successful"
  const Invalid := "Invalid username or password"

  /** `POST /users/login`: the first row whose username and password both equal the
      submitted ones, or a 401 when there is none. */
  function Login(users: seq<Row<Credentials>>, username: string, password: string, fault: Fault)
    : (r: Reply<LoginBody>)
    ensures fault.Raises(0) ==> r == Error(500, fault.message)
    ensures !fault.Raises(0) ==>
              (r.Ok? <==> exists i :: 0 <= i < |users| && users[i].data == Credentials(username, password))
    ensures !fault.Raises(0) && r.Error? ==> r == Error(401, Invalid)
    ensures r.Ok? ==>
              exists i :: 0 <= i < |users| && users[i].data == Credentials(username, password)
                          && r.body == LoginBody(LoggedIn, users[i].id, username)
                          && forall j :: 0 <= j < i ==> users[j].data != Credentials(username, password)
  {
    if fault.Raises(0) then Error(500, fault.message)
    else
      var matches := (u: Row<Credentials>) => u.data == Credentials(username, password);
      var hits := Where(users, matches);
      if |hits| > 0 then
        WhereHead(users, matches);
        Ok(LoginBody(LoggedIn, hits[0].id, hits[0].data.username))
      else
        assert forall i :: 0 <= i < |users| ==> users[i] !in hits;
        Error(401, Invalid)
  }

  /** Signing up and then logging in with the same username and password succeeds; it
      returns the new row's key exactly when no earlier row has the same pair, and the
      key of the first such row otherwise. */
  lemma SignupThenLogin(users: seq<Row<Credentials>>, next: int, username: string, password: string)
    requires Keyed(users, next)
    ensures var r := Login(users + [Row(next, Credentials(username, password))], username, password, Healthy);
              && r.Ok?
              && (r.body.userId == next <==>
                    forall i :: 0 <= i < |users| ==> users[i].data != Credentials(username, password))
  {
    var c := Credentials(username, password);
    var after := users + [Row(next, c)];
    assert after[|users|].data == c;
    var r := Login(after, username, password, Healthy);
    var i :| 0 <= i < |after| && after[i].data == c && r.body == LoginBody(LoggedIn, after[i].id, username)
             && forall j :: 0 <= j < i ==> after[j].data != c;
    if i < |users| {
      assert after[i] == users[i];
      assert r.body.userId < next;
    } else {
      forall k | 0 <= k < |users| ensures users[k].data != c {
        assert after[k] == users[k];
      }
    }
  }

  /** The Users table as `POST /users/signup` changes it. */
  class UserStore {
    var users: seq<Row<Credentials>>
    var nextUserId: int

    ghost predicate Valid()
      reads this
    {
      Keyed(users, nextUserId)
    }

    constructor (users: seq<Row<Credentials>>, nextUserId: int)
      requires Keyed(users, nextUserId)
      ensures Valid() && this.users == users && this.nextUserId == nextUserId
    {
      this.users := users;
      this.nextUserId := nextUserId;
    }

    /** `POST /users/signup`: one insert of the username and the password as sent. */
    method Signup(username: string, password: string, fault: Fault) returns (reply: Reply<string>)
      requires Valid()
      modifies this
      ensures Valid()
      ensures fault.Raises(0) ==>
                reply == Error(500, fault.message) && users == old(users) && nextUserId == old(nextUserId)
      ensures !fault.Raises(0) ==>
                && reply == Ok(Registered)
                && users == old(users) + [Row(old(nextUserId), Credentials(username, password))]
                && nextUserId == old(nextUserId) + 1
    {
      if fault.Raises(0) {
        return Error(500, fault.message);
      }
      KeyedAppend(users, nextUserId, Credentials(username, password));
      users := users + [Row(nextUserId, Credentials(username, password))];
      nextUserId := nextUserId + 1;
      reply := Ok(Registered);
    }
  }
}
