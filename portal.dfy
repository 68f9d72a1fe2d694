/**
 * The component's state and its event handlers. `users`, `applications`
 * and `currentUser` are the three pieces of component state; `errors` is
 * the inline error record of the registration form; `storage` is the
 * browser's key-value store, reduced to typed entries under its three keys.
 */
module App {
  import opened Wrappers
  import opened Domain
  import opened Validation

  /** The storage keys 'currentUser', 'users' and 'applications'. */
  datatype StorageKey = SessionKey | UsersKey | AppsKey

  /** A stored entry, as the value it encodes. */
  datatype Stored = StoredUser(user: User) | StoredUsers(users: seq<User>) | StoredApps(apps: seq<Application>)

  /** The three pieces of state that a page load reads back. */
  datatype Snapshot = Snapshot(users: seq<User>, applications: seq<Application>, currentUser: Option<User>)

  /**
   * The state a page load restores: each entry that is present replaces
   * the initial value (the seeded admin, no tickets, nobody signed in).
   */
  function Restore(storage: map<StorageKey, Stored>): (r: Snapshot)
    ensures storage == map[] ==> r == Snapshot([Admin], [], None)
    ensures r.users == [Admin] || (UsersKey in storage && storage[UsersKey] == StoredUsers(r.users))
    ensures UsersKey in storage && storage[UsersKey].StoredUsers? ==> r.users == storage[UsersKey].users
    ensures r.applications == [] || (AppsKey in storage && storage[AppsKey] == StoredApps(r.applications))
    ensures AppsKey in storage && storage[AppsKey].StoredApps? ==> r.applications == storage[AppsKey].apps
    ensures r.currentUser.Some? <==> SessionKey in storage && storage[SessionKey].StoredUser?
    ensures r.currentUser.Some? ==> storage[SessionKey] == StoredUser(r.currentUser.value)
  {
    Snapshot(
      if UsersKey in storage && storage[UsersKey].StoredUsers? then storage[UsersKey].users else [Admin],
      if AppsKey in storage && storage[AppsKey].StoredApps? then storage[AppsKey].apps else [],
      if SessionKey in storage && storage[SessionKey].StoredUser? then Some(storage[SessionKey].user) else None)
  }

  /** The two passwords `handleLogin` accepts for every account. */
  predicate IsDemoPassword(password: string)
  {
    password == "password" || password == "123456"
  }

  /** The account `handleRegister` creates from the form when `count` accounts exist. */
  function NewAccount(form: RegisterForm, count: int): User
  {
    User(count + 1, form.fullName, form.login, form.email, form.phone, false)
  }

  /** The ticket `handleCreateApplication` files when `count` tickets exist. */
  function NewTicket(count: int, author: User, title: string, description: string, createdAt: string): Application
  {
    Application(count + 1, author.id, title, description, New, createdAt)
  }

  class Portal {
    var users: seq<User>
    var applications: seq<Application>
    var currentUser: Option<User>
    var errors: map<Field, Message>
    var storage: map<StorageKey, Stored>

    /**
     * The invariant of every state reachable from the initial one: the
     * account list keeps its rules, tickets have sequential ids and real
     * authors, the session is one of the accounts, and reloading the page
     * from storage gives back exactly the current state.
     */
    ghost predicate Valid()
      reads this
    {
      && Registry(users)
      && Tickets(applications, |users|)
      && (currentUser.Some? ==> currentUser.value in users)
      && Restore(storage) == Snapshot(users, applications, currentUser)
    }

    /** The state of a first visit: the seeded admin, no tickets, nobody signed in, empty storage. */
    constructor ()
      ensures Valid()
      ensures users == [Admin] && applications == [] && currentUser == None
      ensures errors == map[] && storage == map[]
    {
      users := [Admin];
      applications := [];
      currentUser := None;
      errors := map[];
      storage := map[];
    }

    /**
     * `handleLogin`: succeeds exactly when some account has this login and
     * the password is one of the two accepted ones; then the first such
     * account becomes the session and is stored. Otherwise nothing changes.
     */
    method Login(login: string, password: string) returns (ok: bool)
      requires Valid()
      modifies this
      ensures Valid()
      ensures ok <==> LoginTaken(users, login) && IsDemoPassword(password)
      ensures ok ==> currentUser == FindByLogin(users, login)
      ensures ok ==> currentUser.Some? && currentUser.value in users && currentUser.value.login == login
      ensures ok ==> storage == old(storage)[SessionKey := StoredUser(currentUser.value)]
      ensures !ok ==> currentUser == old(currentUser) && storage == old(storage)
      ensures users == old(users) && applications == old(applications) && errors == old(errors)
    {
      var user := FindByLogin(users, login);
      if user.None? || !IsDemoPassword(password) {
        ok := false;
        return;
      }
      currentUser := user;
      storage := storage[SessionKey := StoredUser(user.value)];
      ok := true;
    }

    /**
     * `handleRegister`: records the form's errors; when there are none,
     * appends a new non-admin account with the next id and the form's data,
     * stores the list, and signs the new account in. Otherwise only the
     * error record changes.
     */
    method Register(form: RegisterForm) returns (ok: bool)
      requires Valid()
      modifies this
      ensures Valid()
      ensures forall f :: Lookup(errors, f) == FieldError(f, form, old(users))
      ensures ok <==> FormValid(form, old(users))
      ensures ok ==> users == old(users) + [NewAccount(form, |old(users)|)]
      ensures ok ==> currentUser == Some(NewAccount(form, |old(users)|))
      ensures ok ==> var u := currentUser.value;
                     && u.id == |old(users)| + 1 && !u.isAdmin
                     && u.fullName == form.fullName && u.login == form.login
                     && u.email == form.email && u.phone == form.phone
      ensures ok ==> storage == old(storage)[UsersKey := StoredUsers(users)][SessionKey := StoredUser(currentUser.value)]
      ensures !ok ==> users == old(users) && currentUser == old(currentUser) && storage == old(storage)
      ensures applications == old(applications)
    {
      errors := ValidateRegister(form, users);
      if errors != map[] {
        ok := false;
        return;
      }
      var newUser := NewAccount(form, |users|);
      AppendKeepsRegistry(users, newUser);
      users := users + [newUser];
      storage := storage[UsersKey := StoredUsers(users)];
      currentUser := Some(newUser);
      storage := storage[SessionKey := StoredUser(newUser)];
      ok := true;
    }

    /**
     * `handleCreateApplication`: with a non-empty title and description,
     * appends one New ticket with the next id, authored by the signed-in
     * account, and stores the list; otherwise nothing changes.
     */
    method CreateApplication(title: string, description: string, createdAt: string) returns (ok: bool)
      requires Valid()
      requires title != "" && description != "" ==> currentUser.Some?
      modifies this
      ensures Valid()
      ensures ok <==> title != "" && description != ""
      ensures ok ==> applications == old(applications) + [NewTicket(|old(applications)|, old(currentUser).value, title, description, createdAt)]
      ensures ok ==> var a := applications[|old(applications)|];
                     && a.id == |old(applications)| + 1 && a.userId == old(currentUser).value.id && a.status == New
                     && a.title == title && a.description == description && a.createdAt == createdAt
      ensures ok ==> storage == old(storage)[AppsKey := StoredApps(applications)]
      ensures !ok ==> applications == old(applications) && storage == old(storage)
      ensures Evolves(old(applications), applications)
      ensures users == old(users) && currentUser == old(currentUser) && errors == old(errors)
    {
      if title == "" || description == "" {
        ok := false;
        return;
      }
      var author := currentUser.value;
      var k :| 0 <= k < |users| && users[k] == author;
      var app := NewTicket(|applications|, author, title, description, createdAt);
      AppendEvolves(applications, app, |users|);
      applications := applications + [app];
      storage := storage[AppsKey := StoredApps(applications)];
      ok := true;
    }

    /**
     * `handleStatusChange`: every ticket with id `appId` takes the verdict,
     * everything else stays, and the list is stored. An unknown id changes
     * no ticket. The handler itself does not check who is signed in.
     */
    method ChangeStatus(appId: int, verdict: Verdict)
      requires Valid()
      modifies this
      ensures Valid()
      ensures applications == WithStatus(old(applications), appId, verdict)
      ensures storage == old(storage)[AppsKey := StoredApps(applications)]
      ensures Evolves(old(applications), applications)
      ensures users == old(users) && currentUser == old(currentUser) && errors == old(errors)
    {
      WithStatusEvolves(applications, appId, verdict, |users|);
      applications := WithStatus(applications, appId, verdict);
      storage := storage[AppsKey := StoredApps(applications)];
    }

    /** `handleLogout`: ends the session and removes it from storage. */
    method Logout()
      requires Valid()
      modifies this
      ensures Valid()
      ensures currentUser == None && storage == old(storage) - {SessionKey}
      ensures users == old(users) && applications == old(applications) && errors == old(errors)
    {
      currentUser := None;
      storage := storage - {SessionKey};
    }
  }
}
