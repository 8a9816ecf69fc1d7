/**
 * The authentication service (services/auth_service.py): registration,
 * with its validation chain and the seeding of the default categories,
 * and login.
 */
module AuthService {
  import opened Common
  import opened Schema
  import opened Passwords
  import UserModel
  import CategoryModel

  const MsgRegisterRequired: string := "Username und Passwort erforderlich"
  const MsgUsernameShort: string := "Username muss mindestens 3 Zeichen lang sein"
  const MsgPasswordShort: string := "Passwort muss mindestens 6 Zeichen lang sein"
  const MsgUsernameTaken: string := "Username bereits vergeben"
  const MsgRegistered: string := "Registrierung erfolgreich!"
  const MsgRegisterFailed: string := "Fehler bei der Registrierung"
  const MsgLoginRequired: string := "Bitte alle Felder ausfüllen"
  const MsgLoginInvalid: string := "Ungültiger Username oder Passwort"
  const MsgLoggedIn: string := "Login erfolgreich!"

  const MinUsernameLength: nat := 3
  const MinPasswordLength: nat := 6

  /** The checks made before the store is consulted: the message of the first one that fails. */
  function RegisterRejection(username: Field, password: Field): (r: Option<string>)
    ensures r.None? <==> !Falsy(username) && !Falsy(password)
                         && |username.text| >= MinUsernameLength && |password.text| >= MinPasswordLength
    ensures Falsy(username) || Falsy(password) ==> r == Some(MsgRegisterRequired)
  {
    if Falsy(username) || Falsy(password) then Some(MsgRegisterRequired)
    else if |username.text| < MinUsernameLength then Some(MsgUsernameShort)
    else if |password.text| < MinPasswordLength then Some(MsgPasswordShort)
    else None
  }

  /**
   * `register_user`. A rejected or taken username changes nothing. Otherwise
   * the user is created (`fault` is the INSERT failing) and, on success, the
   * default categories are seeded for the new id (`seedFault(i)` is the i-th
   * INSERT failing); registration reports success whatever the seeding gives.
   */
  method RegisterUser(db: Database, username: Field, password: Field, salt: string,
                      fault: bool, seedFault: nat -> bool)
    returns (success: bool, message: string)
    requires db.Valid()
    modifies db`users, db`nextUserId, db`categories, db`nextCategoryId
    ensures db.Valid()
    ensures RegisterRejection(username, password).Some? ==>
              && !success && message == RegisterRejection(username, password).value
              && db.users == old(db.users) && db.categories == old(db.categories)
              && db.nextUserId == old(db.nextUserId) && db.nextCategoryId == old(db.nextCategoryId)
    ensures RegisterRejection(username, password).None? && UserModel.UsernameTaken(old(db.users), username.text) ==>
              && !success && message == MsgUsernameTaken
              && db.users == old(db.users) && db.categories == old(db.categories)
              && db.nextUserId == old(db.nextUserId) && db.nextCategoryId == old(db.nextCategoryId)
    ensures RegisterRejection(username, password).None? && !UserModel.UsernameTaken(old(db.users), username.text) ==>
              var row := User(old(db.nextUserId), username.text, Generate(password.text, salt));
              && success == (!fault && UserFits(row))
              && message == (if success then MsgRegistered else MsgRegisterFailed)
              && db.users == (if success then old(db.users) + [row] else old(db.users))
              && db.nextUserId == (if success then old(db.nextUserId) + 1 else old(db.nextUserId))
              && (!success ==> db.categories == old(db.categories) && db.nextCategoryId == old(db.nextCategoryId))
              && (success ==> SeededFor(old(db.categories), db.categories, row.id,
                                        old(db.nextCategoryId), db.nextCategoryId, seedFault))
  {
    var rejection := RegisterRejection(username, password);
    if rejection.Some? {
      return false, rejection.value;
    }
    if UserModel.UsernameExists(db.users, username.text, false) {
      return false, MsgUsernameTaken;
    }
    success := CreateAndSeed(db, username.text, password.text, salt, fault, seedFault);
    message := if success then MsgRegistered else MsgRegisterFailed;
  }

  /**
   * The part of `register_user` after the checks: create the user and, once
   * it is found by name, seed its default categories.
   */
  method CreateAndSeed(db: Database, username: string, password: string, salt: string,
                       fault: bool, seedFault: nat -> bool)
    returns (success: bool)
    requires db.Valid() && !UserModel.UsernameTaken(db.users, username)
    modifies db`users, db`nextUserId, db`categories, db`nextCategoryId
    ensures db.Valid()
    ensures var row := User(old(db.nextUserId), username, Generate(password, salt));
      && success == (!fault && UserFits(row))
      && db.users == (if success then old(db.users) + [row] else old(db.users))
      && db.nextUserId == (if success then old(db.nextUserId) + 1 else old(db.nextUserId))
      && (!success ==> db.categories == old(db.categories) && db.nextCategoryId == old(db.nextCategoryId))
      && (success ==> SeededFor(old(db.categories), db.categories, row.id,
                                old(db.nextCategoryId), db.nextCategoryId, seedFault))
  {
    ghost var users := db.users;
    ghost var row := User(db.nextUserId, username, Generate(password, salt));
    var created := UserModel.Create(db, username, password, salt, fault);
    if !created {
      return false;
    }
    assert db.users == users + [row];
    UserModel.FindCreated(users, row, password);
    var user := UserModel.FindByUsername(db.users, username, false);
    assert user == Some(row);
    if user.Some? {
      SeedDefaults(db, user.value.id, seedFault);
    }
    return true;
  }

  /** The seeding step of registration, with its outcome stated as `SeededFor`. */
  method SeedDefaults(db: Database, userId: int, seedFault: nat -> bool)
    requires db.Valid()
    modifies db`categories, db`nextCategoryId
    ensures db.Valid()
    ensures SeededFor(old(db.categories), db.categories, userId, old(db.nextCategoryId), db.nextCategoryId, seedFault)
  {
    var _ := CategoryModel.CreateDefaultCategories(db, userId, seedFault);
  }

  /**
   * What seeding leaves behind: the earlier rows followed by exactly the
   * rows `CategoryModel.SeededRows` describes, the category counter moved on
   * by their number.
   */
  ghost predicate SeededFor(before: seq<Category>, after: seq<Category>, userId: int,
                            nextBefore: int, nextAfter: int, seedFault: nat -> bool) {
    var added := CategoryModel.SeededRows(before, userId, nextBefore, seedFault, |CategoryModel.Defaults|);
    after == before + added && nextAfter == nextBefore + |added|
  }

  /** `(success, user, message)` of `login_user`. */
  datatype LoginResult = LoginResult(success: bool, user: Option<User>, message: string)

  /**
   * `login_user`: succeeds exactly when both fields are given and the user
   * found by that name verifies the password. An unknown name and a wrong
   * password give one and the same answer. `fault` is the lookup raising.
   */
  function LoginUser(users: seq<User>, username: Field, password: Field, fault: bool): (r: LoginResult)
    ensures Falsy(username) || Falsy(password) ==> r == LoginResult(false, None, MsgLoginRequired)
    ensures r.success <==> !Falsy(username) && !Falsy(password)
                           && var found := UserModel.FindByUsername(users, username.text, fault);
                              found.Some? && UserModel.VerifyPassword(found.value, password.text)
    ensures r.success ==> && r.user.Some? && r.user.value in users && r.user.value.username == username.text
                          && UserModel.VerifyPassword(r.user.value, password.text)
                          && r.message == MsgLoggedIn
    ensures !r.success && !Falsy(username) && !Falsy(password) ==> r == LoginResult(false, None, MsgLoginInvalid)
  {
    if Falsy(username) || Falsy(password) then LoginResult(false, None, MsgLoginRequired)
    else
      var found := UserModel.FindByUsername(users, username.text, fault);
      if found.None? then LoginResult(false, None, MsgLoginInvalid)
      else if !UserModel.VerifyPassword(found.value, password.text) then LoginResult(false, None, MsgLoginInvalid)
      else LoginResult(true, found, MsgLoggedIn)
  }

  /** Whoever has just registered can log in with the same name and password. */
  lemma LoginAfterRegister(users: seq<User>, nextId: int, username: string, password: string, salt: string)
    requires username != [] && password != []
    requires !UserModel.UsernameTaken(users, username)
    ensures var row := User(nextId, username, Generate(password, salt));
      LoginUser(users + [row], Given(username), Given(password), false) == LoginResult(true, Some(row), MsgLoggedIn)
  {
    var row := User(nextId, username, Generate(password, salt));
    CheckGenerated(password, salt);
    UserModel.FindCreated(users, row, password);
  }

  /** A second registration under a registered name is refused as taken. */
  lemma RegisterTwice(users: seq<User>, row: User)
    ensures UserModel.UsernameTaken(users + [row], row.username)
  {
    assert (users + [row])[|users|] == row;
  }
}
