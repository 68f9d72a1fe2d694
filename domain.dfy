/**
 * The two entities of the portal (`User`, `Application`), the seeded
 * administrator, the pure sequence queries the handlers use, and the
 * invariants that the handlers keep.
 */
module Domain {
  import opened Wrappers
  import opened Seqs

  /** A portal account. Accounts are created by registration (or seeded) and never edited. */
  datatype User = User(
    id: int,
    fullName: string,
    login: string,
    email: string,
    phone: string,
    isAdmin: bool)

  /** The status of a ticket: 'Новая', 'Решена' or 'Отклонена'. */
  datatype Status = New | Resolved | Rejected

  /** The two statuses an administrator may set. */
  type Verdict = s: Status | s != New witness Resolved

  /** A resident's complaint ticket. */
  datatype Application = Application(
    id: int,
    userId: int,
    title: string,
    description: string,
    status: Status,
    createdAt: string)

  /** The label a status carries in the source and on screen. */
  function StatusLabel(s: Status): string
  {
    match s
    case New => "Новая"
    case Resolved => "Решена"
    case Rejected => "Отклонена"
  }

  /** The one account present before anyone registers. */
  const Admin := User(1, "Администратор", "admin", "admin@test.ru", "+7 (900)000-00-00", true)

  /** `users.some(u => u.login === login)`. */
  function LoginTaken(users: seq<User>, login: string): (r: bool)
    ensures r <==> exists i :: 0 <= i < |users| && users[i].login == login
  {
    Any(users, (u: User) => u.login == login)
  }

  /** `users.find(u => u.login === login)`. */
  function FindByLogin(users: seq<User>, login: string): (r: Option<User>)
    ensures r.None? <==> !LoginTaken(users, login)
    ensures r.Some? ==> r.value.login == login
    ensures r.Some? ==> exists i :: 0 <= i < |users| && users[i] == r.value
                                    && forall j :: 0 <= j < i ==> users[j].login != login
  {
    Find(users, (u: User) => u.login == login)
  }

  /** `users.find(u => u.id === id)`: how a ticket's author is looked up. */
  function FindById(users: seq<User>, id: int): (r: Option<User>)
    ensures r.None? <==> forall i :: 0 <= i < |users| ==> users[i].id != id
    ensures r.Some? ==> r.value.id == id
    ensures r.Some? ==> exists i :: 0 <= i < |users| && users[i] == r.value
                                    && forall j :: 0 <= j < i ==> users[j].id != id
  {
    Find(users, (u: User) => u.id == id)
  }

  /** The ticket after `handleStatusChange(appId, s)` has looked at it. */
  function Stamp(a: Application, appId: int, s: Status): Application
  {
    if a.id == appId then a.(status := s) else a
  }

  /**
   * `applications.map(app => app.id === appId ? { ...app, status: s } : app)`:
   * every ticket with that id gets status `s`, every other ticket and every
   * other field stays as it was.
   */
  function WithStatus(apps: seq<Application>, appId: int, s: Status): (r: seq<Application>)
    ensures |r| == |apps|
    ensures forall i :: 0 <= i < |apps| && apps[i].id == appId ==> r[i] == apps[i].(status := s)
    ensures forall i :: 0 <= i < |apps| && apps[i].id != appId ==> r[i] == apps[i]
  {
    Map(apps, (a: Application) => Stamp(a, appId, s))
  }

  // ----- invariants -----

  /** No two accounts share a login. */
  ghost predicate LoginsUnique(users: seq<User>)
  {
    forall i, j :: 0 <= i < j < |users| ==> users[i].login != users[j].login
  }

  /** Ids are assigned as `count + 1`, so the account at index `i` has id `i + 1`. */
  ghost predicate IdsSequential(users: seq<User>)
  {
    forall i :: 0 <= i < |users| ==> users[i].id == i + 1
  }

  /** The account list as the handlers keep it: seeded admin first, the only admin. */
  ghost predicate Registry(users: seq<User>)
  {
    && |users| >= 1
    && users[0] == Admin
    && (forall i :: 1 <= i < |users| ==> !users[i].isAdmin)
    && LoginsUnique(users)
    && IdsSequential(users)
  }

  /** Ticket ids are `index + 1` and every ticket's author is one of the `count` accounts. */
  ghost predicate Tickets(apps: seq<Application>, count: int)
  {
    forall i :: 0 <= i < |apps| ==> apps[i].id == i + 1 && 1 <= apps[i].userId <= count
  }

  /**
   * `after` is a possible later state of `before`: tickets are only appended,
   * an existing ticket changes at most its status, and a ticket that has left
   * New never returns to it.
   */
  ghost predicate Evolves(before: seq<Application>, after: seq<Application>)
  {
    && |before| <= |after|
    && (forall i :: 0 <= i < |before| ==> after[i] == before[i].(status := after[i].status))
    && (forall i :: 0 <= i < |before| && before[i].status != New ==> after[i].status != New)
  }

  // ----- lemmas -----

  /** With unique logins the `find` of a taken login is the one account with it. */
  lemma FindByLoginUnique(users: seq<User>, login: string, k: int)
    requires LoginsUnique(users)
    requires 0 <= k < |users| && users[k].login == login
    ensures FindByLogin(users, login) == Some(users[k])
  {
    var r := FindByLogin(users, login);
    var i :| 0 <= i < |users| && users[i] == r.value && forall j :: 0 <= j < i ==> users[j].login != login;
    assert i == k;
  }

  /** Under sequential ids the author of ticket `a` is found at index `a.userId - 1`. */
  lemma FindByIdSequential(users: seq<User>, id: int)
    requires IdsSequential(users)
    requires 1 <= id <= |users|
    ensures FindById(users, id) == Some(users[id - 1])
  {
    var r := FindById(users, id);
    assert users[id - 1].id == id;
    var i :| 0 <= i < |users| && users[i] == r.value && forall j :: 0 <= j < i ==> users[j].id != id;
  }

  /** Appending an account with a fresh login and the next id keeps the registry. */
  lemma AppendKeepsRegistry(users: seq<User>, u: User)
    requires Registry(users)
    requires !LoginTaken(users, u.login)
    requires u.id == |users| + 1 && !u.isAdmin
    ensures Registry(users + [u])
  {
    var us := users + [u];
    forall i, j | 0 <= i < j < |us| ensures us[i].login != us[j].login {
      if j == |users| {
        assert us[i] == users[i];
      }
    }
  }

  /** A status change on an unknown id leaves the tickets as they are. */
  lemma WithStatusUnknownId(apps: seq<Application>, appId: int, s: Status)
    requires forall i :: 0 <= i < |apps| ==> apps[i].id != appId
    ensures WithStatus(apps, appId, s) == apps
  {
    var r := WithStatus(apps, appId, s);
    assert forall i :: 0 <= i < |apps| ==> r[i] == apps[i];
  }

  /** A second status change on the same id overrides the first. */
  lemma WithStatusLastWins(apps: seq<Application>, appId: int, s1: Status, s2: Status)
    ensures WithStatus(WithStatus(apps, appId, s1), appId, s2) == WithStatus(apps, appId, s2)
  {
    var once := WithStatus(apps, appId, s1);
    var twice := WithStatus(once, appId, s2);
    var direct := WithStatus(apps, appId, s2);
    forall i | 0 <= i < |apps| ensures twice[i] == direct[i] {
      assert once[i].id == apps[i].id;
    }
  }

  /** Applying the same status change twice is the same as applying it once. */
  lemma WithStatusIdempotent(apps: seq<Application>, appId: int, s: Status)
    ensures WithStatus(WithStatus(apps, appId, s), appId, s) == WithStatus(apps, appId, s)
  {
    WithStatusLastWins(apps, appId, s, s);
  }

  /** A verdict never produces a New ticket that was not New already. */
  lemma WithStatusNeverNew(apps: seq<Application>, appId: int, v: Verdict, i: int)
    requires 0 <= i < |apps|
    ensures WithStatus(apps, appId, v)[i].status == New <==> apps[i].status == New && apps[i].id != appId
  {
  }

  /** A verdict is a legal step of a ticket list, and it keeps ids and authors. */
  lemma WithStatusEvolves(apps: seq<Application>, appId: int, v: Verdict, count: int)
    ensures Evolves(apps, WithStatus(apps, appId, v))
    ensures Tickets(apps, count) ==> Tickets(WithStatus(apps, appId, v), count)
  {
  }

  /** Appending a New ticket with the next id is a legal step that keeps the id rule. */
  lemma AppendEvolves(apps: seq<Application>, a: Application, count: int)
    requires a.id == |apps| + 1 && 1 <= a.userId <= count
    ensures Evolves(apps, apps + [a])
    ensures Tickets(apps, count) ==> Tickets(apps + [a], count)
  {
  }

  /** Legal steps compose, so the one-way status rule holds over any run. */
  lemma EvolvesTransitive(a: seq<Application>, b: seq<Application>, c: seq<Application>)
    requires Evolves(a, b) && Evolves(b, c)
    ensures Evolves(a, c)
  {
    forall i | 0 <= i < |a| ensures c[i] == a[i].(status := c[i].status) {
      assert b[i] == a[i].(status := b[i].status);
      assert c[i] == b[i].(status := c[i].status);
    }
  }
}
