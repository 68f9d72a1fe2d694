/**
 * The values the page derives from the state before rendering: the badge
 * colour of a status, the administrator's ticket rows, the resident's own
 * ticket list, and which of the three screens is shown.
 */
module Views {
  import opened Wrappers
  import opened Seqs
  import opened Domain

  /** The badge class of a label no status carries. */
  const MutedColor := "bg-muted"

  /** `getStatusColor`: the badge class for a status label. */
  function StatusColor(text: string): (r: string)
    ensures r != MutedColor <==> exists s :: text == StatusLabel(s)
  {
    if text == StatusLabel(New) then "bg-gradient-to-r from-primary to-secondary text-white"
    else if text == StatusLabel(Resolved) then "bg-gradient-to-r from-green-500 to-emerald-500 text-white"
    else if text == StatusLabel(Rejected) then "bg-gradient-to-r from-red-500 to-rose-500 text-white"
    else MutedColor
  }

  /** Each status has its own badge colour. */
  lemma StatusColorsDistinct(s: Status, t: Status)
    requires s != t
    ensures StatusColor(StatusLabel(s)) != StatusColor(StatusLabel(t))
  {
  }

  /** One card of the administrator's list: the ticket, its author, and whether the verdict buttons show. */
  datatype AdminRow = AdminRow(ticket: Application, author: Option<User>, verdictButtons: bool)

  /** The card for one ticket: its author looked up by id, buttons only while the ticket is New. */
  function RowOf(users: seq<User>, a: Application): AdminRow
  {
    AdminRow(a, FindById(users, a.userId), a.status == New)
  }

  /** The administrator's list: one card per ticket, in ticket order. */
  function AdminRows(apps: seq<Application>, users: seq<User>): (rows: seq<AdminRow>)
    ensures |rows| == |apps|
    ensures forall i :: 0 <= i < |apps| ==> rows[i].ticket == apps[i]
    ensures forall i :: 0 <= i < |apps| ==> (rows[i].verdictButtons <==> apps[i].status == New)
  {
    Map(apps, (a: Application) => RowOf(users, a))
  }

  /** In a consistent state every card names the ticket's actual author. */
  lemma AdminRowsAuthors(apps: seq<Application>, users: seq<User>, i: int)
    requires IdsSequential(users) && Tickets(apps, |users|)
    requires 0 <= i < |apps|
    ensures AdminRows(apps, users)[i].author == Some(users[apps[i].userId - 1])
  {
    FindByIdSequential(users, apps[i].userId);
  }

  /** After a verdict on `appId`, no card for that id offers the verdict buttons any more. */
  lemma VerdictHidesButtons(apps: seq<Application>, users: seq<User>, appId: int, v: Verdict, i: int)
    requires 0 <= i < |apps|
    ensures AdminRows(WithStatus(apps, appId, v), users)[i].verdictButtons
            <==> apps[i].status == New && apps[i].id != appId
  {
    WithStatusNeverNew(apps, appId, v, i);
  }

  /** `applications.filter(app => app.userId === currentUser.id)`. */
  function ResidentTickets(apps: seq<Application>, uid: int): (r: seq<Application>)
    ensures forall k :: 0 <= k < |r| ==> r[k].userId == uid
  {
    Filter(apps, (a: Application) => a.userId == uid)
  }

  /**
   * The resident's list holds exactly the tickets whose author is `uid`, in
   * their original order: it is `apps` read at increasing indices, and those
   * indices are all positions of tickets by `uid`.
   */
  lemma ResidentTicketsExact(apps: seq<Application>, uid: int) returns (ix: seq<int>)
    ensures StrictlyIncreasing(ix)
    ensures forall k :: 0 <= k < |ix| ==> 0 <= ix[k] < |apps| && apps[ix[k]].userId == uid
    ensures forall i :: 0 <= i < |apps| && apps[i].userId == uid ==> exists k :: 0 <= k < |ix| && ix[k] == i
    ensures |ix| == |ResidentTickets(apps, uid)|
    ensures forall k :: 0 <= k < |ix| ==> ResidentTickets(apps, uid)[k] == apps[ix[k]]
  {
    ix := FilterSelects(apps, (a: Application) => a.userId == uid);
    assert Selection(apps, (a: Application) => a.userId == uid, ix);
  }

  /** The three screens of the page. */
  datatype Screen = SignIn | AdminPanel(rows: seq<AdminRow>) | ResidentPanel(tickets: seq<Application>)

  /**
   * The page's branching: the sign-in tabs when nobody is logged in, the
   * review panel for the administrator, the create-and-history view for a
   * resident.
   */
  function ScreenOf(currentUser: Option<User>, users: seq<User>, apps: seq<Application>): (r: Screen)
    ensures r.SignIn? <==> currentUser.None?
    ensures r.AdminPanel? <==> currentUser.Some? && currentUser.value.isAdmin
    ensures r.AdminPanel? ==> |r.rows| == |apps|
    ensures r.AdminPanel? ==> forall i :: 0 <= i < |apps| ==>
              r.rows[i].ticket == apps[i] && (r.rows[i].verdictButtons <==> apps[i].status == New)
    ensures r.ResidentPanel? ==> forall k :: 0 <= k < |r.tickets| ==> r.tickets[k].userId == currentUser.value.id
  {
    match currentUser
    case None => SignIn
    case Some(u) =>
      if u.isAdmin then AdminPanel(AdminRows(apps, users))
      else ResidentPanel(ResidentTickets(apps, u.id))
  }

  /** A resident sees every one of their own tickets. */
  lemma ResidentSeesAllOwn(u: User, users: seq<User>, apps: seq<Application>, i: int)
    requires !u.isAdmin
    requires 0 <= i < |apps| && apps[i].userId == u.id
    ensures ScreenOf(Some(u), users, apps).ResidentPanel?
    ensures apps[i] in ScreenOf(Some(u), users, apps).tickets
  {
    var ix := ResidentTicketsExact(apps, u.id);
    var k :| 0 <= k < |ix| && ix[k] == i;
    assert ResidentTickets(apps, u.id)[k] == apps[i];
  }
}
