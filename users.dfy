/**
 * UserController: user accounts with unique logins, admin-only listing,
 * password reset, editing and deletion, a self-service password change that
 * checks the old password, and no-self-delete. Deleting a user deletes the
 * user's api tokens (the `cascade` of api_tokens.user_id).
 *
 * `make` stands for the password hasher. Every write of the `password`
 * attribute passes `Hash::make(p)` through the model's `setPasswordAttribute`
 * mutator, which hashes it once more, so a stored password is `make(make(p))`.
 */
module Users {
  import opened Support
  import opened Schema

  const Admin: string := "admin"
  const MinPassword: nat := 6

  /** What every user response exposes: `$user->only('id', 'login', 'role_id')`. */
  datatype UserView = UserView(id: Id, login: string, roleId: Id)

  /** A row of `index`: the id, the login and the name of the joined role. */
  datatype UserListing = UserListing(login: string, role: string)

  /** The stored form of a submitted password: `make` applied by the controller and again by the mutator. */
  function StoredPassword(make: string -> string, password: string): string {
    make(make(password))
  }

  function View(users: Table<User>, id: Id): (v: UserView)
    requires id in users.rows
    ensures v.id == id && v.login == users.rows[id].login && v.roleId == users.rows[id].roleId
  {
    UserView(id, users.rows[id].login, users.rows[id].roleId)
  }

  /**
   * `auth()->user()->role->name !== 'admin'`: no refusal for an admin, a
   * 403 with `message` for any other role; a caller whose role row is missing
   * reads a property of null, which the framework turns into a 500.
   */
  function AdminGate(users: Table<User>, roles: map<Id, string>, caller: Id, message: string): (r: Option<Error>)
    requires caller in users.rows
    ensures r.None? <==> users.rows[caller].roleId in roles && roles[users.rows[caller].roleId] == Admin
    ensures r.Some? ==> r.value == (if users.rows[caller].roleId in roles then Forbidden(message) else Internal)
  {
    var role := users.rows[caller].roleId;
    if role !in roles then Some(Internal)
    else if roles[role] != Admin then Some(Forbidden(message))
    else None
  }

  /**
   * `index` for an admin: every user whose role row exists (an inner join
   * with roles), with login and role name; passwords are not part of it.
   */
  function Index(users: Table<User>, roles: map<Id, string>, caller: Id): (r: Result<map<Id, UserListing>>)
    requires caller in users.rows
    ensures r.Err? <==> AdminGate(users, roles, caller, "Access denied. Admins only.").Some?
    ensures r.Err? ==> r.error == AdminGate(users, roles, caller, "Access denied. Admins only.").value
    ensures r.Ok? ==> forall id :: id in r.value <==> id in users.rows && users.rows[id].roleId in roles
    ensures r.Ok? ==> forall id :: id in r.value ==>
      r.value[id] == UserListing(users.rows[id].login, roles[users.rows[id].roleId])
  {
    var gate := AdminGate(users, roles, caller, "Access denied. Admins only.");
    if gate.Some? then Err(gate.value)
    else Ok(map id | id in users.rows && users.rows[id].roleId in roles
      :: UserListing(users.rows[id].login, roles[users.rows[id].roleId]))
  }

  /** No user holds the login (`unique:users`). */
  predicate LoginFree(users: map<Id, User>, login: string) {
    forall u :: u in users ==> users[u].login != login
  }

  /** `required|string|min:6|max:255` on a password. */
  predicate PasswordAccepted(p: Option<string>, max: bool) {
    p.Some? && Required(p.value) && |p.value| >= MinPassword && (max ==> |p.value| <= 255)
  }

  /** The rules of `store`. */
  predicate StoreAccepts(users: map<Id, User>, roles: map<Id, string>,
    login: Option<string>, password: Option<string>, roleId: Option<Id>) {
    && login.Some? && Required(login.value) && |login.value| <= 255 && LoginFree(users, login.value)
    && PasswordAccepted(password, true)
    && roleId.Some? && roleId.value in roles
  }

  /** A duplicate login or a password shorter than six characters is refused by `store`. */
  lemma StoreRejects(users: map<Id, User>, roles: map<Id, string>,
    login: Option<string>, password: Option<string>, roleId: Option<Id>)
    requires (login.Some? && !LoginFree(users, login.value)) || (password.Some? && |password.value| < MinPassword)
    ensures !StoreAccepts(users, roles, login, password, roleId)
  {
  }

  /** Adding a user with a free login keeps logins unique and the tokens' owners valid. */
  function AddUser(users: Table<User>, tokens: Table<ApiToken>, u: User): (r: (Table<User>, Id))
    requires UsersValid(users) && TokensValid(tokens, users) && LoginFree(users.rows, u.login)
    ensures r == users.Insert(u)
    ensures UsersValid(r.0) && TokensValid(tokens, r.0)
  {
    users.Insert(u)
  }

  /**
   * `store` (no admin check): a rule violation is a 422 and changes nothing;
   * otherwise exactly one user is created with the hashed password.
   */
  method Store(db: Database, login: Option<string>, password: Option<string>, roleId: Option<Id>, make: string -> string)
    returns (r: Result<UserView>)
    requires db.Valid()
    modifies db`users
    ensures db.Valid()
    ensures r.Ok? <==> StoreAccepts(old(db.users.rows), db.roles, login, password, roleId)
    ensures r.Err? ==> r.error == ValidationFailed && db.users == old(db.users)
    ensures r.Ok? ==>
      && r.value == UserView(old(db.users.next), login.value, roleId.value)
      && db.users == old(db.users).Insert(User(login.value, StoredPassword(make, password.value), roleId.value)).0
  {
    if !StoreAccepts(db.users.rows, db.roles, login, password, roleId) {
      return Err(ValidationFailed);
    }
    var ins := AddUser(db.users, db.tokens, User(login.value, StoredPassword(make, password.value), roleId.value));
    db.SetUserRows(ins.0);
    r := Ok(View(db.users, ins.1));
  }

  /** Changing a user's role or password keeps logins unique and the tokens valid. */
  function Replace(users: Table<User>, tokens: Table<ApiToken>, id: Id, u: User): (r: Table<User>)
    requires UsersValid(users) && TokensValid(tokens, users) && id in users.rows && u.login == users.rows[id].login
    ensures r == users.Put(id, u)
    ensures UsersValid(r) && TokensValid(tokens, r)
  {
    users.Put(id, u)
  }

  /**
   * `updateRole` (no admin check): an unknown id is a 404, a missing or
   * unknown role a 422, neither changing anything; otherwise only the
   * user's role changes.
   */
  method UpdateRole(db: Database, id: Id, roleId: Option<Id>) returns (r: Result<UserView>)
    requires db.Valid()
    modifies db`users
    ensures db.Valid()
    ensures id !in old(db.users.rows) ==> r == Err(NotFound(NoQueryResults))
    ensures id in old(db.users.rows) && !(roleId.Some? && roleId.value in db.roles) ==> r == Err(ValidationFailed)
    ensures r.Err? ==> db.users == old(db.users)
    ensures r.Ok? <==> id in old(db.users.rows) && roleId.Some? && roleId.value in db.roles
    ensures r.Ok? ==>
      && db.users == old(db.users).Put(id, old(db.users.rows[id]).(roleId := roleId.value))
      && r.value == UserView(id, old(db.users.rows[id].login), roleId.value)
  {
    if id !in db.users.rows {
      return Err(NotFound(NoQueryResults));
    }
    if !(roleId.Some? && roleId.value in db.roles) {
      return Err(ValidationFailed);
    }
    var users := Replace(db.users, db.tokens, id, db.users.rows[id].(roleId := roleId.value));
    db.SetUserRows(users);
    r := Ok(View(db.users, id));
  }

  /** `old_password` `required|string`; `new_password` `required|string|min:6|confirmed`. */
  predicate ChangeAccepted(oldPassword: Option<string>, newPassword: Option<string>, confirmation: Option<string>) {
    && oldPassword.Some? && Required(oldPassword.value)
    && PasswordAccepted(newPassword, false)
    && confirmation == newPassword
  }

  /**
   * `updatePassword` for the authenticated `caller`: a rule violation is a
   * 422, and an old password that does not `check` against the stored hash
   * a 422 on `old_password`, both leaving the password as it was; otherwise
   * only the caller's password changes.
   */
  method UpdatePassword(
    db: Database, caller: Id, oldPassword: Option<string>, newPassword: Option<string>, confirmation: Option<string>,
    check: (string, string) -> bool, make: string -> string) returns (r: Result<string>)
    requires db.Valid() && caller in db.users.rows
    modifies db`users
    ensures db.Valid()
    ensures !ChangeAccepted(oldPassword, newPassword, confirmation) ==> r == Err(ValidationFailed)
    ensures ChangeAccepted(oldPassword, newPassword, confirmation)
      && !check(oldPassword.value, old(db.users.rows[caller].password))
      ==> r == Err(Invalid("old_password"))
    ensures r.Err? ==> db.users == old(db.users)
    ensures r.Ok? <==>
      ChangeAccepted(oldPassword, newPassword, confirmation) && check(oldPassword.value, old(db.users.rows[caller].password))
    ensures r.Ok? ==>
      && r.value == "Password updated successfully"
      && db.users == old(db.users).Put(caller, old(db.users.rows[caller]).(password := StoredPassword(make, newPassword.value)))
  {
    if !ChangeAccepted(oldPassword, newPassword, confirmation) {
      return Err(ValidationFailed);
    }
    if !check(oldPassword.value, db.users.rows[caller].password) {
      return Err(Invalid("old_password"));
    }
    var users := Replace(db.users, db.tokens, caller,
      db.users.rows[caller].(password := StoredPassword(make, newPassword.value)));
    db.SetUserRows(users);
    r := Ok("Password updated successfully");
  }

  /** The reply of `resetPassword`. */
  datatype ResetReply = ResetReply(message: string, userId: Id)

  /**
   * `resetPassword`: a non-admin caller is refused (403), then an unknown id
   * is a 404 and a password that is missing or shorter than six characters
   * a 422, none changing anything; otherwise only that user's password
   * changes.
   */
  method ResetPassword(db: Database, caller: Id, id: Id, newPassword: Option<string>, make: string -> string)
    returns (r: Result<ResetReply>)
    requires db.Valid() && caller in db.users.rows
    modifies db`users
    ensures db.Valid()
    ensures AdminGate(old(db.users), db.roles, caller, "Only admin can reset passwords.").Some? ==>
      r == Err(AdminGate(old(db.users), db.roles, caller, "Only admin can reset passwords.").value)
    ensures r.Err? ==> db.users == old(db.users)
    ensures r.Ok? <==>
      && AdminGate(old(db.users), db.roles, caller, "Only admin can reset passwords.").None?
      && id in old(db.users.rows) && PasswordAccepted(newPassword, false)
    ensures AdminGate(old(db.users), db.roles, caller, "Only admin can reset passwords.").None?
      && id !in old(db.users.rows)
      ==> r == Err(NotFound(NoQueryResults))
    ensures r.Ok? ==>
      && r.value == ResetReply("Password reset successfully for user: " + old(db.users.rows[id].login), id)
      && db.users == old(db.users).Put(id, old(db.users.rows[id]).(password := StoredPassword(make, newPassword.value)))
  {
    var gate := AdminGate(db.users, db.roles, caller, "Only admin can reset passwords.");
    if gate.Some? {
      return Err(gate.value);
    }
    if id !in db.users.rows {
      return Err(NotFound(NoQueryResults));
    }
    if !PasswordAccepted(newPassword, false) {
      return Err(ValidationFailed);
    }
    var login := db.users.rows[id].login;
    var users := Replace(db.users, db.tokens, id, db.users.rows[id].(password := StoredPassword(make, newPassword.value)));
    db.SetUserRows(users);
    r := Ok(ResetReply("Password reset successfully for user: " + login, id));
  }

  /** `$request->filled('password')`: present and not blank. */
  predicate Filled(v: Option<string>) {
    v.Some? && Required(v.value)
  }

  /**
   * The rules of `update`: a supplied role must exist; a filled password
   * must have six characters and comes with `confirm_password_change`
   * `required|accepted`.
   */
  predicate UpdateAccepts(roles: map<Id, string>, roleId: Option<Id>, password: Option<string>, confirm: Option<string>) {
    && (roleId.Some? ==> roleId.value in roles)
    && (Filled(password) ==> |password.value| >= MinPassword && confirm.Some? && AcceptedValue(confirm.value))
  }

  /**
   * The row `update` saves: the role only when supplied, and the password
   * whenever one is supplied (`isset`), a blank one included, since the
   * `min:6` rule is skipped on a blank value and no confirmation is asked
   * for it.
   */
  function Edited(u: User, roleId: Option<Id>, password: Option<string>, make: string -> string): (e: User)
    ensures e.login == u.login
    ensures e.roleId == (if roleId.Some? then roleId.value else u.roleId)
    ensures e.password == (if password.Some? then StoredPassword(make, password.value) else u.password)
  {
    var withRole := if roleId.Some? then u.(roleId := roleId.value) else u;
    if password.Some? then withRole.(password := StoredPassword(make, password.value)) else withRole
  }

  /** An `update` that supplies neither a role nor a password saves the row unchanged. */
  lemma EditNothing(u: User, make: string -> string)
    ensures Edited(u, None, None, make) == u
  {
  }

  /**
   * A blank password passes the rules of `update` without a confirmation
   * and without six characters, and is saved like any other.
   */
  lemma BlankPasswordSaved(roles: map<Id, string>, u: User, password: string, confirm: Option<string>, make: string -> string)
    requires !Required(password)
    ensures UpdateAccepts(roles, None, Some(password), confirm)
    ensures Edited(u, None, Some(password), make).password == StoredPassword(make, password)
  {
  }

  /**
   * `update`: a non-admin caller is refused (403), then an unknown id is a
   * 404 and a rule violation a 422, none changing anything; otherwise the
   * user becomes `Edited`.
   */
  method Update(db: Database, caller: Id, id: Id, roleId: Option<Id>, password: Option<string>, confirm: Option<string>,
    make: string -> string) returns (r: Result<UserView>)
    requires db.Valid() && caller in db.users.rows
    modifies db`users
    ensures db.Valid()
    ensures AdminGate(old(db.users), db.roles, caller, "Only admins can edit users").Some? ==>
      r == Err(AdminGate(old(db.users), db.roles, caller, "Only admins can edit users").value)
    ensures r.Err? ==> db.users == old(db.users)
    ensures r.Ok? <==>
      && AdminGate(old(db.users), db.roles, caller, "Only admins can edit users").None?
      && id in old(db.users.rows) && UpdateAccepts(db.roles, roleId, password, confirm)
    ensures AdminGate(old(db.users), db.roles, caller, "Only admins can edit users").None?
      && id !in old(db.users.rows)
      ==> r == Err(NotFound(NoQueryResults))
    ensures r.Ok? ==>
      && db.users == old(db.users).Put(id, Edited(old(db.users.rows[id]), roleId, password, make))
      && r.value == View(db.users, id)
  {
    var gate := AdminGate(db.users, db.roles, caller, "Only admins can edit users");
    if gate.Some? {
      return Err(gate.value);
    }
    if id !in db.users.rows {
      return Err(NotFound(NoQueryResults));
    }
    if !UpdateAccepts(db.roles, roleId, password, confirm) {
      return Err(ValidationFailed);
    }
    var users := Replace(db.users, db.tokens, id, Edited(db.users.rows[id], roleId, password, make));
    db.SetUserRows(users);
    r := Ok(View(db.users, id));
  }

  /**
   * Deleting user `id` and, by the cascade, exactly that user's tokens; the
   * constraints are kept.
   */
  function RemoveUser(users: Table<User>, tokens: Table<ApiToken>, id: Id): (r: (Table<User>, Table<ApiToken>))
    requires UsersValid(users) && TokensValid(tokens, users)
    ensures r.0 == users.(rows := users.rows - {id})
    ensures r.1.next == tokens.next
    ensures forall t :: t in r.1.rows <==> t in tokens.rows && tokens.rows[t].userId != id
    ensures forall t :: t in r.1.rows ==> r.1.rows[t] == tokens.rows[t]
    ensures UsersValid(r.0) && TokensValid(r.1, r.0)
  {
    var kept := map t | t in tokens.rows && tokens.rows[t].userId != id :: tokens.rows[t];
    (users.(rows := users.rows - {id}), tokens.(rows := kept))
  }

  /** After the cascade no remaining token belongs to the deleted user. */
  lemma RemovedUserHasNoTokens(users: Table<User>, tokens: Table<ApiToken>, id: Id)
    requires UsersValid(users) && TokensValid(tokens, users)
    ensures var (_, tokens') := RemoveUser(users, tokens, id);
      forall t :: t in tokens'.rows ==> tokens'.rows[t].userId != id
  {
  }

  /**
   * `destroy`: a non-admin caller is refused (403), then an unknown id is a
   * 404, then deleting oneself a 400 "You cannot delete yourself", none
   * changing anything; otherwise the user and their tokens are deleted.
   */
  method Destroy(db: Database, caller: Id, id: Id) returns (r: Result<Id>)
    requires db.Valid() && caller in db.users.rows
    modifies db`users, db`tokens
    ensures db.Valid()
    ensures AdminGate(old(db.users), db.roles, caller, "Only admins can delete users").Some? ==>
      r == Err(AdminGate(old(db.users), db.roles, caller, "Only admins can delete users").value)
    ensures AdminGate(old(db.users), db.roles, caller, "Only admins can delete users").None?
      && id == caller
      ==> r == Err(BadRequest("You cannot delete yourself"))
    ensures r.Err? ==> db.users == old(db.users) && db.tokens == old(db.tokens)
    ensures r.Ok? <==>
      && AdminGate(old(db.users), db.roles, caller, "Only admins can delete users").None?
      && id in old(db.users.rows) && id != caller
    ensures r.Ok? ==> r.value == id && (db.users, db.tokens) == RemoveUser(old(db.users), old(db.tokens), id)
  {
    var gate := AdminGate(db.users, db.roles, caller, "Only admins can delete users");
    if gate.Some? {
      return Err(gate.value);
    }
    if id !in db.users.rows {
      return Err(NotFound(NoQueryResults));
    }
    if id == caller {
      return Err(BadRequest("You cannot delete yourself"));
    }
    var (users, tokens) := RemoveUser(db.users, db.tokens, id);
    db.SetUsers(users, tokens);
    r := Ok(id);
  }
}
