/**
 * The `users` table and its two server functions (convex/users.js): `updateUser`, which
 * patches the row found by email or inserts a new one, and `onboardingStatus`.
 */
module Users {
  import opened Wrappers

  /** A row of the `users` table without its system fields. */
  datatype User = User(
    name: string,
    email: string,
    resumeURL: Option<string>,
    githubURL: Option<string>,
    portfolioURL: Option<string>,
    linkedinURL: Option<string>,
    hasOnboarded: bool)

  datatype UserRow = UserRow(id: nat, user: User)

  /** The arguments of `updateUser`; None stands for an argument that was not supplied. */
  datatype UpdateArgs = UpdateArgs(
    name: string,
    email: string,
    resumeURL: Option<string>,
    githubURL: Option<string>,
    hasOnboarded: Option<bool>)

  /** The `by_email` index lookup with `.first()`: the earliest row with that email. */
  function FindByEmail(rows: seq<UserRow>, email: string): (r: Option<nat>)
    ensures r.Some? ==> r.value < |rows| && rows[r.value].user.email == email
    ensures r.Some? ==> forall j :: 0 <= j < r.value ==> rows[j].user.email != email
    ensures r.None? ==> forall j :: 0 <= j < |rows| ==> rows[j].user.email != email
  {
    if rows == [] then None
    else if rows[0].user.email == email then Some(0)
    else match FindByEmail(rows[1..], email)
      case None => None
      case Some(i) => Some(i + 1)
  }

  function UserOf(rows: seq<UserRow>, email: string): Option<User> {
    match FindByEmail(rows, email)
    case None => None
    case Some(i) => Some(rows[i].user)
  }

  /** The patch of an existing user: the name always, the other three fields only when supplied. */
  function Patch(u: User, a: UpdateArgs): (r: User)
    ensures r.email == u.email && r.portfolioURL == u.portfolioURL && r.linkedinURL == u.linkedinURL
    ensures r.name == a.name
  {
    u.(name := a.name,
       resumeURL := if a.resumeURL.Some? then a.resumeURL else u.resumeURL,
       githubURL := if a.githubURL.Some? then a.githubURL else u.githubURL,
       hasOnboarded := if a.hasOnboarded.Some? then a.hasOnboarded.value else u.hasOnboarded)
  }

  /** The row inserted for an unknown email; `hasOnboarded` defaults to false. */
  function NewUser(a: UpdateArgs): (r: User)
    ensures r.email == a.email && r.name == a.name
    ensures r.portfolioURL.None? && r.linkedinURL.None?
    ensures r.hasOnboarded <==> a.hasOnboarded == Some(true)
  {
    User(a.name, a.email, a.resumeURL, a.githubURL, None, None, a.hasOnboarded.GetOr(false))
  }

  /** The table after `updateUser`, and the id it returns. */
  function Upsert(rows: seq<UserRow>, nextId: nat, a: UpdateArgs): (seq<UserRow>, nat) {
    match FindByEmail(rows, a.email)
    case Some(i) => (rows[i := UserRow(rows[i].id, Patch(rows[i].user, a))], rows[i].id)
    case None => (rows + [UserRow(nextId, NewUser(a))], nextId)
  }

  /** `onboardingStatus`: false when no user has the email. */
  function OnboardingStatus(rows: seq<UserRow>, email: string): (r: bool)
    ensures r <==> UserOf(rows, email).Some? && UserOf(rows, email).value.hasOnboarded
  {
    match FindByEmail(rows, email)
    case None => false
    case Some(i) => rows[i].user.hasOnboarded
  }

  /** Row `i` is the earliest row holding `email`, the one `.first()` on the index returns. */
  predicate EarliestWith(rows: seq<UserRow>, email: string, i: int) {
    0 <= i < |rows| && rows[i].user.email == email
    && forall j :: 0 <= j < i ==> rows[j].user.email != email
  }

  /** The status is true exactly when the earliest row with the email exists and is onboarded. */
  lemma OnboardingStatusRows(rows: seq<UserRow>, email: string)
    ensures OnboardingStatus(rows, email) <==> exists i :: EarliestWith(rows, email, i) && rows[i].user.hasOnboarded
  {
  }

  predicate UniqueEmails(rows: seq<UserRow>) {
    forall i, j :: 0 <= i < j < |rows| ==> rows[i].user.email != rows[j].user.email
  }

  class UsersTable {
    var rows: seq<UserRow>
    var nextId: nat

    ghost predicate Valid()
      reads this
    {
      (forall i :: 0 <= i < |rows| ==> rows[i].id < nextId) && UniqueEmails(rows)
    }

    constructor ()
      ensures Valid() && rows == []
    {
      rows, nextId := [], 0;
    }

    /** `updateUser` */
    method UpdateUser(a: UpdateArgs) returns (id: nat)
      requires Valid()
      modifies this
      ensures Valid()
      ensures (rows, id) == Upsert(old(rows), old(nextId), a)
    {
      match FindByEmail(rows, a.email)
      case Some(i) =>
        id := rows[i].id;
        rows := rows[i := UserRow(id, Patch(rows[i].user, a))];
      case None =>
        id := nextId;
        rows := rows + [UserRow(id, NewUser(a))];
        nextId := nextId + 1;
    }
  }

  // ---------------------------------------------------------------------------------
  // Proofs

  lemma {:induction false} FindByEmailSameEmails(rows: seq<UserRow>, rows': seq<UserRow>, email: string)
    requires |rows| == |rows'|
    requires forall j :: 0 <= j < |rows| ==> rows[j].user.email == rows'[j].user.email
    ensures FindByEmail(rows', email) == FindByEmail(rows, email)
  {
    if rows != [] {
      FindByEmailSameEmails(rows[1..], rows'[1..], email);
    }
  }

  lemma {:induction false} FindByEmailSnoc(rows: seq<UserRow>, row: UserRow, email: string)
    ensures FindByEmail(rows + [row], email) ==
      if FindByEmail(rows, email).Some? then FindByEmail(rows, email)
      else if row.user.email == email then Some(|rows|) else None
  {
    if rows != [] {
      assert (rows + [row])[1..] == rows[1..] + [row];
      FindByEmailSnoc(rows[1..], row, email);
    }
  }

  /** After `updateUser` the email's user is the patched old one, or the new one. */
  lemma UpsertSelf(rows: seq<UserRow>, nextId: nat, a: UpdateArgs)
    ensures UserOf(Upsert(rows, nextId, a).0, a.email) ==
      if UserOf(rows, a.email).Some? then Some(Patch(UserOf(rows, a.email).value, a)) else Some(NewUser(a))
  {
    var rows' := Upsert(rows, nextId, a).0;
    match FindByEmail(rows, a.email)
    case Some(i) =>
      FindByEmailSameEmails(rows, rows', a.email);
    case None =>
      FindByEmailSnoc(rows, UserRow(nextId, NewUser(a)), a.email);
  }

  /** `updateUser` leaves every other email's user as it was. */
  lemma UpsertOthers(rows: seq<UserRow>, nextId: nat, a: UpdateArgs, email: string)
    requires email != a.email
    ensures UserOf(Upsert(rows, nextId, a).0, email) == UserOf(rows, email)
  {
    var rows' := Upsert(rows, nextId, a).0;
    match FindByEmail(rows, a.email)
    case Some(i) =>
      FindByEmailSameEmails(rows, rows', email);
    case None =>
      FindByEmailSnoc(rows, UserRow(nextId, NewUser(a)), email);
  }

  /** The status `onboardingStatus` reports after `updateUser`: the supplied flag, else the previous status. */
  lemma UpsertStatus(rows: seq<UserRow>, nextId: nat, a: UpdateArgs)
    ensures OnboardingStatus(Upsert(rows, nextId, a).0, a.email) ==
      if a.hasOnboarded.Some? then a.hasOnboarded.value else OnboardingStatus(rows, a.email)
  {
    UpsertSelf(rows, nextId, a);
  }

  /** At most one user per email, as long as `updateUser` is the only writer. */
  lemma UpsertUniqueEmails(rows: seq<UserRow>, nextId: nat, a: UpdateArgs)
    requires UniqueEmails(rows)
    ensures UniqueEmails(Upsert(rows, nextId, a).0)
  {
  }

  /** An argument that is not supplied leaves its field alone; a supplied false is still written. */
  lemma PatchSuppliedOnly(u: User, a: UpdateArgs)
    ensures a.resumeURL.None? ==> Patch(u, a).resumeURL == u.resumeURL
    ensures a.githubURL.None? ==> Patch(u, a).githubURL == u.githubURL
    ensures a.hasOnboarded.None? ==> Patch(u, a).hasOnboarded == u.hasOnboarded
    ensures a.hasOnboarded == Some(false) ==> !Patch(u, a).hasOnboarded
    ensures a.resumeURL.None? && a.githubURL.None? && a.hasOnboarded.None? ==> Patch(u, a) == u.(name := a.name)
  {
  }

  /** Calling `updateUser` twice with the same arguments has the effect of calling it once. */
  lemma UpsertIdempotent(rows: seq<UserRow>, nextId: nat, a: UpdateArgs)
    ensures var (rows1, id1) := Upsert(rows, nextId, a);
            Upsert(rows1, nextId + 1, a) == (rows1, id1)
  {
    var (rows1, id1) := Upsert(rows, nextId, a);
    match FindByEmail(rows, a.email)
    case Some(i) =>
      FindByEmailSameEmails(rows, rows1, a.email);
      assert rows1[i := UserRow(rows1[i].id, Patch(rows1[i].user, a))] == rows1;
    case None =>
      FindByEmailSnoc(rows, UserRow(nextId, NewUser(a)), a.email);
      assert Patch(NewUser(a), a) == NewUser(a);
      assert rows1[|rows| := UserRow(nextId, NewUser(a))] == rows1;
  }
}
