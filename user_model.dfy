/**
 * The user model (models/user.py): the users table, its UNIQUE(username)
 * constraint, and the password hash stored in place of the password.
 */
module UserModel {
  import opened Common
  import opened Schema
  import opened Passwords

  predicate UsernameTaken(users: seq<User>, username: string) {
    exists u :: u in users && u.username == username
  }

  lemma AppendKeepsValid(users: seq<User>, row: User, nextId: int)
    requires UsersValid(users, nextId)
    requires row.id == nextId && !UsernameTaken(users, row.username) && UserFits(row)
    ensures UsersValid(users + [row], nextId + 1)
  {
    var r := users + [row];
    assert forall i :: 0 <= i < |users| ==> r[i] == users[i];
    assert r[|users|] == row;
    assert forall u :: u in r ==> u in users || u == row;
    forall i, j | 0 <= i < j < |r| ensures r[i].username != r[j].username {
      if j == |users| {
        assert r[i] in users;
      }
    }
  }

  /**
   * `User.create`: hashes the password with the given salt and inserts one
   * row. It fails, inserting nothing, on a store fault, a taken username or
   * a username wider than its column. The row holds the hash, which checks
   * against the password.
   */
  method Create(db: Database, username: string, password: string, salt: string, fault: bool) returns (ok: bool)
    requires db.Valid()
    modifies db`users, db`nextUserId
    ensures db.Valid()
    ensures var row := User(old(db.nextUserId), username, Generate(password, salt));
      && ok == (!fault && UserFits(row) && !UsernameTaken(old(db.users), username))
      && db.users == (if ok then old(db.users) + [row] else old(db.users))
      && (ok ==> Check(row.password, password))
    ensures db.nextUserId == old(db.nextUserId) + (if ok then 1 else 0)
  {
    var row := User(db.nextUserId, username, Generate(password, salt));
    if fault || !UserFits(row) || UsernameTaken(db.users, username) {
      return false;
    }
    AppendKeepsValid(db.users, row, db.nextUserId);
    CheckGenerated(password, salt);
    db.users := db.users + [row];
    db.nextUserId := db.nextUserId + 1;
    ok := true;
  }

  /** `find_by_username`: the user with that name, `None` when there is none or the query raises. */
  function FindByUsername(users: seq<User>, username: string, fault: bool): (r: Option<User>)
    ensures r.Some? <==> !fault && UsernameTaken(users, username)
    ensures r.Some? ==> r.value in users && r.value.username == username
  {
    if fault || users == [] then None
    else if users[0].username == username then Some(users[0])
    else
      assert forall u :: u in users && u != users[0] ==> u in users[1..];
      FindByUsername(users[1..], username, false)
  }

  /** `find_by_id`: the user with that id, `None` when there is none or the query raises. */
  function FindById(users: seq<User>, id: int, fault: bool): (r: Option<User>)
    ensures r.Some? <==> !fault && exists u :: u in users && u.id == id
    ensures r.Some? ==> r.value in users && r.value.id == id
  {
    if fault || users == [] then None
    else if users[0].id == id then Some(users[0])
    else
      assert forall u :: u in users && u != users[0] ==> u in users[1..];
      FindById(users[1..], id, false)
  }

  /** `SELECT COUNT(*) FROM users WHERE username = %s`. */
  function CountNamed(users: seq<User>, username: string): (n: nat)
    ensures n <= |users|
    ensures n > 0 <==> UsernameTaken(users, username)
  {
    if users == [] then 0
    else
      var init, last := users[..|users| - 1], users[|users| - 1];
      assert users == init + [last];
      CountNamed(init, username) + (if last.username == username then 1 else 0)
  }

  /** `username_exists`: False when the query raises. */
  function UsernameExists(users: seq<User>, username: string, fault: bool): (r: bool)
    ensures r <==> !fault && UsernameTaken(users, username)
  {
    !fault && CountNamed(users, username) > 0
  }

  /** `verify_password`: the stored hash checks against the given password. */
  predicate VerifyPassword(u: User, password: string): (r: bool)
    ensures r <==> u.password == Generate(password, u.password.salt)
  {
    Check(u.password, password)
  }

  /** After a successful create, the user is found by name and verifies the same password. */
  lemma {:induction false} FindCreated(users: seq<User>, row: User, password: string)
    requires !UsernameTaken(users, row.username)
    requires Check(row.password, password)
    ensures FindByUsername(users + [row], row.username, false) == Some(row)
    ensures VerifyPassword(FindByUsername(users + [row], row.username, false).value, password)
  {
    if users != [] {
      assert (users + [row])[1..] == users[1..] + [row];
      assert users[0] in users;
      assert forall u :: u in users[1..] ==> u in users;
      FindCreated(users[1..], row, password);
    }
  }

  /** In a valid table, a user found by name is the only one with that name. */
  lemma FoundIsUnique(users: seq<User>, nextId: int, username: string, k: int)
    requires UsersValid(users, nextId)
    requires 0 <= k < |users| && users[k].username == username
    ensures FindByUsername(users, username, false) == Some(users[k])
  {
    var r := FindByUsername(users, username, false);
    var i :| 0 <= i < |users| && users[i] == r.value;
    assert i == k;
  }
}
