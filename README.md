# Complaint portal: verified model of the domain layer

The portal is a single-page application for a municipal complaint service. Residents
register, sign in and file tickets ("applications") about problems in their
neighbourhood. One seeded administrator account reviews every ticket and marks
it Resolved or Rejected. All state lives in the page component and is mirrored
to the browser's key-value storage.

This project models the component's domain layer, `src/pages/Index.tsx`, in Dafny:

- `wrappers.dfy`, module `Wrappers`: the `Option` type (the source's `User | null`
  and `find` results).
- `seqs.dfy`, module `Seqs`: the array methods the component uses, written as
  functions: `some` (`Any`), `find` (`Find`), `filter` (`Filter`) and `map` (`Map`).
  It also proves that `filter` selects exactly the matching positions, in order.
- `domain.dfy`, module `Domain`:
  - the `User` and `Application` records, the three statuses, and the seeded
    administrator;
  - the look-ups by login and by id, and the status update applied by
    `handleStatusChange`;
  - the invariants the handlers keep: unique logins, ids equal to index + 1,
    ticket authors that exist, and statuses that never return to New.
- `validation.dfy`, module `Validation`:
  - `validateRegister`: one predicate per regular expression and the message
    each field reports;
  - a method that builds the error record by the same successive assignments
    as the source, so the later "login taken" message overwrites the charset
    message;
  - plain-language descriptions of the email and phone patterns, proved
    equivalent to them.
- `views.dfy`, module `Views`: the values the page derives before rendering:
  - `getStatusColor`;
  - the administrator's ticket cards (author look-up, verdict buttons only
    on New tickets);
  - the resident's own-ticket filter;
  - the choice between the sign-in, administrator and resident screens.
- `portal.dfy`, module `App`: class `Portal`, whose fields are the component
  state (`users`, `applications`, `currentUser`), the registration error
  record, and the storage.
  - Each handler is a method with its full new-state contract.
  - `Valid()` is kept by every method. It states that the account list starts
    with the administrator, logins are unique, ids are sequential, the tickets
    are consistent, and reloading the page from storage reproduces the state.
- `scenarios.dfy`, module `Scenarios`: short client runs (sign-in, registration,
  filing a ticket, resolving it) derived from the handlers' contracts alone.

The two browser effects are modelled as follows:

- Browser storage is a map from the three keys (`currentUser`, `users`,
  `applications`) to the typed values they hold. JSON text is not modelled.
- The timestamp of a new ticket is passed in as the `createdAt` parameter.

Three behaviours of the code are easy to misread:

- The email pattern `^[^\s@]+@[^\s@]+\.[^\s@]+$` accepts domains with several
  dots after the `@` (`a@b.c.d`). `Validation.EmailShape` states exactly what
  it accepts.
- The full-name pattern uses `\s`, so any JavaScript whitespace character is
  accepted in a name, not only the space.
- `handleStatusChange` does not check that the administrator is signed in, nor
  that the ticket is still New. Only the view restricts it, by showing the
  buttons on New tickets to the administrator alone.
  - `App.Portal.ChangeStatus` therefore has no such precondition.
  - A verdict can overwrite an earlier verdict (Resolved to Rejected). What the
    code does guarantee, and the model proves, is that a ticket never returns
    to New.

## Model

| member | source | states |
|---|---|---|
| Seqs.Any | src/pages/Index.tsx:68 | `some` is true exactly when some element satisfies the predicate |
| Seqs.Find | src/pages/Index.tsx:93 | `find` returns nothing exactly when no element matches; otherwise it returns a matching element with no match before it |
| Seqs.Filter | src/pages/Index.tsx:378 | `filter` keeps only matching elements and never lengthens the list |
| Seqs.Map | src/pages/Index.tsx:154-156 | `map` keeps the length and applies the function at every index |
| Seqs.FilterAppend | src/pages/Index.tsx:378 | filtering a concatenation is the concatenation of the filtered parts |
| Seqs.FilterSelects | src/pages/Index.tsx:378 | the filter result is the input read at strictly increasing indices, which are exactly the positions of the matching elements |
| Seqs.ExtendSelection | src/pages/Index.tsx:378 | adding one element at the end extends that selection by its position when it matches, and leaves it unchanged otherwise |
| Domain.LoginTaken | src/pages/Index.tsx:68 | the uniqueness check is true exactly when some account has the login |
| Domain.FindByLogin | src/pages/Index.tsx:93 | the login look-up fails exactly when the login is not taken; otherwise it returns the first account with that login |
| Domain.FindById | src/pages/Index.tsx:437 | the author look-up fails exactly when no account has the id; otherwise it returns the first account with that id |
| Domain.Stamp | src/pages/Index.tsx:155 | one ticket after the status change: the new status when its id matches, unchanged otherwise |
| Domain.WithStatus | src/pages/Index.tsx:154-156 | the length is kept; each ticket with the id gets the new status and changes no other field; every other ticket is unchanged |
| Domain.FindByLoginUnique | src/pages/Index.tsx:93 | with unique logins, the look-up of a taken login returns the one account that holds it |
| Domain.FindByIdSequential | src/pages/Index.tsx:437 | with ids equal to index + 1, the author of a ticket is found at index `userId - 1` |
| Domain.AppendKeepsRegistry | src/pages/Index.tsx:110-119 | appending a non-admin account with an unused login and id `count + 1` keeps the registry invariant: admin first and the only admin, unique logins, sequential ids |
| Domain.WithStatusUnknownId | src/pages/Index.tsx:154-156 | a status change on an id no ticket has changes nothing |
| Domain.WithStatusLastWins | src/pages/Index.tsx:154-156 | two status changes on the same id equal the second one alone |
| Domain.WithStatusIdempotent | src/pages/Index.tsx:154-156 | applying the same status change twice equals applying it once |
| Domain.WithStatusNeverNew | src/pages/Index.tsx:153-156 | after a verdict, a ticket is New exactly when it was New and has another id |
| Domain.WithStatusEvolves | src/pages/Index.tsx:153-156 | a verdict only changes statuses, never turns a ticket back to New, and keeps ticket ids and authors |
| Domain.AppendEvolves | src/pages/Index.tsx:136-145 | appending a ticket with the next id and an existing author is a legal step and keeps the ticket invariant |
| Domain.EvolvesTransitive | src/pages/Index.tsx:145-157 | legal steps compose, so the one-way status rule holds over any sequence of handler calls |
| Validation.FullNameMatches | src/pages/Index.tsx:60 | the full-name pattern: a non-empty string of Russian letters (А–я, Ё, ё), whitespace and hyphens |
| Validation.LoginMatches | src/pages/Index.tsx:64 | the login pattern: a non-empty string of Latin letters, digits and underscores |
| Validation.EmailMatches | src/pages/Index.tsx:72 | the email pattern: three non-empty runs without whitespace or `@`, separated by an `@` and a later `.` |
| Validation.PhoneMatches | src/pages/Index.tsx:76 | the phone pattern: the string fits the mask `+7 (###)###-##-##` character by character, with a digit at each `#` |
| Validation.FieldError | src/pages/Index.tsx:60-86 | the message each key of the error record ends up with: the field's message when its check fails, nothing otherwise; for the login, "already taken" before the charset message |
| Validation.ValidateRegister | src/pages/Index.tsx:57-89 | each field carries exactly the message its check calls for; a taken login reports "already taken" even when its charset also fails; the record is empty exactly when every check passes |
| Validation.ReportIsExact | src/pages/Index.tsx:89 | an error record with exactly the per-field messages is empty exactly when the whole form is valid |
| Validation.EmailShape | src/pages/Index.tsx:72 | the email pattern accepts exactly the strings with no whitespace, a single `@` with something before it, and after the `@` a domain with a `.` that is neither its first nor its last character |
| Validation.EmailMatchesDescribed | src/pages/Index.tsx:72 | a string the email pattern accepts fits that description |
| Validation.EmailDescribedMatches | src/pages/Index.tsx:72 | a string that fits that description is accepted by the email pattern |
| Validation.PhoneShape | src/pages/Index.tsx:76 | the phone pattern accepts exactly the 17-character strings `+7 (` ddd `)` ddd `-` dd `-` dd |
| Validation.AdminSeedWellFormed | src/pages/Index.tsx:33 | the seeded administrator's name, login, email and phone pass their own patterns |
| Views.StatusColor | src/pages/Index.tsx:168-175 | the badge class is something other than the muted one exactly when the label is one of the three status labels |
| Views.StatusColorsDistinct | src/pages/Index.tsx:168-175 | two different statuses get different badge classes |
| Views.RowOf | src/pages/Index.tsx:437-455 | one card: the ticket, its author looked up by id, and the verdict buttons exactly when the ticket is New |
| Views.AdminRows | src/pages/Index.tsx:436-455 | one card per ticket, in ticket order; each card shows the verdict buttons exactly when its ticket is New |
| Views.AdminRowsAuthors | src/pages/Index.tsx:437 | in a consistent state each card names the ticket's actual author |
| Views.VerdictHidesButtons | src/pages/Index.tsx:455-465 | after a verdict on an id, a card shows the buttons exactly when its ticket was New and has another id |
| Views.ResidentTickets | src/pages/Index.tsx:378 | every ticket in the resident's list was filed by that resident |
| Views.ResidentTicketsExact | src/pages/Index.tsx:378 | the resident's list is the ticket list read at strictly increasing indices, which are exactly the positions of that resident's tickets |
| Views.ScreenOf | src/pages/Index.tsx:177-414 | sign-in exactly when nobody is signed in; the administrator panel exactly when the session is an admin, holding one card per ticket in ticket order, each with the verdict buttons exactly when its ticket is New; otherwise the resident panel, holding only the resident's tickets |
| Views.ResidentSeesAllOwn | src/pages/Index.tsx:378 | a resident's screen contains every ticket they filed |
| App.Restore | src/pages/Index.tsx:46-55 | the page-load read-back: empty storage gives the initial state; a stored account list or ticket list is always restored as stored, and a missing one gives its initial value; a session is restored exactly when one is stored |
| App.IsDemoPassword | src/pages/Index.tsx:94 | the password test: "password" or "123456" |
| App.NewAccount | src/pages/Index.tsx:110-117 | the account registration creates: id `count + 1`, the form's name, login, email and phone, not an admin |
| App.NewTicket | src/pages/Index.tsx:136-143 | the ticket filing creates: id `count + 1`, the author's id, the title and description, status New, the given timestamp |
| App.Portal.constructor | src/pages/Index.tsx:31-35 | the first visit holds just the seeded administrator, no tickets, no session and empty storage, and satisfies the invariant |
| App.Portal.Login | src/pages/Index.tsx:92-102 | succeeds exactly when some account has the login and the password is "password" or "123456"; then the first such account becomes the session and is stored; otherwise nothing changes |
| App.Portal.Register | src/pages/Index.tsx:104-124 | the error record is exactly the per-field messages; success exactly when the form is valid; then one non-admin account with id `count + 1` and the form's data is appended, stored and signed in; on failure accounts, session and storage are unchanged |
| App.Portal.CreateApplication | src/pages/Index.tsx:130-147 | success exactly when title and description are non-empty; then one New ticket is appended with the next id and the session's id as author, and stored; otherwise nothing changes |
| App.Portal.ChangeStatus | src/pages/Index.tsx:153-158 | the tickets become the status update of the old list, which is stored; the step is legal (no ticket returns to New) |
| App.Portal.Logout | src/pages/Index.tsx:162-164 | the session ends and its storage entry is removed; nothing else changes |
| Scenarios.AdminSignIn | src/pages/Index.tsx:92-100 | on a first visit the administrator is refused with a wrong password and admitted with "password" |
| Scenarios.SampleFormValid | src/pages/Index.tsx:57-89 | a concrete resident form passes every registration check |
| Scenarios.ResidentFilesTicket | src/pages/Index.tsx:104-147 | a resident registers, a second registration with the same login is refused with "already taken", a ticket without a description is refused, and a complete ticket is filed |
| Scenarios.ResidentTicketResolved | src/pages/Index.tsx:92-166 | after a logout, the administrator signs in with "123456" and resolves the ticket; a verdict on an unknown id changes nothing |

## Left out

- JSX rendering, CSS layout, animation delays, icons, tabs, cards and the other
  UI primitives are presentation only. Of the rendered values, only the status
  badge class, the administrator's cards, the resident filter and the choice
  of screen are modelled.
- Toast notifications are foreign UI effects. Login, Register and
  CreateApplication return a success flag instead; ChangeStatus and Logout
  have no failure case.
- JSON encoding and decoding of storage entries is a library encoder, so
  storage holds the typed values themselves.
- The page-load reload reads back whatever data is stored, which may be
  arbitrary. `App.Restore` models it only over the entries the handlers write,
  and `Valid()` states that it reproduces the state. The invariants are proved
  for runs from the first visit, not for hand-edited storage.
- `new Date().toLocaleString('ru-RU')` depends on the clock and locale, so
  `createdAt` is a parameter of `App.Portal.CreateApplication`.
- The per-keystroke `onChange` updates, the form resets after success, the
  `authMode` tab toggle and the role caption under the user's name have no
  domain logic.
- React batches state updates and re-renders. The model applies each
  handler's updates at once and in order.
- App.Portal.CreateApplication: requires a signed-in session when both fields
  are non-empty. In the source, `currentUser!` would fail otherwise; the page
  only shows the form to a signed-in resident.
- Validation.IsWhitespace: is the fixed ECMAScript whitespace and line
  terminator set. It does not follow a JavaScript engine's Unicode version.
- Validation.ValidateRegister: the password length uses Dafny's `|s|` over
  characters, not JavaScript's UTF-16 `.length`. The two differ only for
  characters outside the Basic Multilingual Plane.
