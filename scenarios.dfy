/**
 * Client walkthroughs: what a caller can conclude about a sequence of
 * handler calls from the handlers' contracts alone.
 */
module Scenarios {
  import opened Wrappers
  import opened Domain
  import opened Validation
  import opened Views
  import opened App

  /** On a first visit the administrator signs in with "password", not with "wrong". */
  method AdminSignIn() returns (p: Portal, wrong: bool, right: bool)
    ensures p.Valid()
    ensures !wrong && right
    ensures p.currentUser == Some(Admin)
  {
    p := new Portal();
    wrong := p.Login("admin", "wrong");
    assert p.currentUser == None;
    FindByLoginUnique(p.users, "admin", 0);
    right := p.Login("admin", "password");
  }

  /** A resident's registration form that passes every check. */
  const SampleForm := RegisterForm("Иван Петров-Водкин", "ivan_1", "ivan@mail.ru", "+7 (912)345-67-89", "secret1", "secret1")

  lemma SampleFormValid()
    ensures FormValid(SampleForm, [Admin])
  {
    var e := SampleForm.email;
    assert e[4] == '@' && e[9] == '.';
    assert EmailRun(e, 0, 4) && EmailRun(e, 5, 9) && EmailRun(e, 10, |e|);
    assert PhoneMatches(SampleForm.phone);
    assert FullNameMatches(SampleForm.fullName);
  }

  const SampleTitle := "Яма во дворе"
  const SampleDescription := "Глубокая яма у подъезда"
  const SampleTime := "01.06.2025, 12:00:00"

  /**
   * A resident registers, cannot register the same login twice, cannot
   * file a ticket without a description, and then files one.
   */
  method ResidentFilesTicket() returns (p: Portal)
    ensures fresh(p) && p.Valid()
    ensures p.users == [Admin, NewAccount(SampleForm, 1)]
    ensures p.currentUser == Some(NewAccount(SampleForm, 1))
    ensures p.applications == [NewTicket(0, NewAccount(SampleForm, 1), SampleTitle, SampleDescription, SampleTime)]
  {
    p := new Portal();
    SampleFormValid();
    var registered := p.Register(SampleForm);
    assert registered;
    var taken := p.Register(SampleForm);
    assert !taken && Lookup(p.errors, Login) == Some(LoginInUse);
    var blank := p.CreateApplication(SampleTitle, "", SampleTime);
    assert !blank && p.applications == [];
    var filed := p.CreateApplication(SampleTitle, SampleDescription, SampleTime);
    assert filed;
  }

  /** The resident signs out, the administrator signs in and resolves the ticket; an unknown id changes nothing. */
  method ResidentTicketResolved() returns (p: Portal)
    ensures p.Valid()
    ensures |p.users| == 2 && |p.applications| == 1
    ensures p.applications[0].userId == 2 && p.applications[0].status == Resolved
    ensures p.currentUser == Some(Admin)
  {
    p := ResidentFilesTicket();
    p.Logout();
    FindByLoginUnique(p.users, "admin", 0);
    var admin := p.Login("admin", "123456");
    assert admin;
    p.ChangeStatus(1, Resolved);
    WithStatusUnknownId(p.applications, 99, Rejected);
    p.ChangeStatus(99, Rejected);
  }
}
