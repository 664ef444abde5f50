/**
 * The `emails` table (convex/emails.js): `createEmail` stores a generated email and
 * `getEmailsByUser` lists one sender's emails, newest first, with the system fields renamed.
 */
module Emails {

  /** The four values the schema allows for an email's status. */
  datatype Status = Draft | Sent | Failed | Resend

  /** The fields of an email as the application supplies them. */
  datatype Email = Email(
    subject: string,
    content: string,
    jobTitle: string,
    company: string,
    recipientEmail: string,
    status: Status,
    createdBy: string)

  /** A stored email with its system fields `_id` and `_creationTime`. */
  datatype EmailRow = EmailRow(id: nat, creationTime: int, email: Email)

  /** What `getEmailsByUser` returns for one email: `id`, `createdAt` and the stored fields. */
  datatype EmailView = EmailView(id: nat, createdAt: int, email: Email)

  function View(row: EmailRow): EmailView {
    EmailView(row.id, row.creationTime, row.email)
  }

  /** Rows in the order they were inserted carry strictly increasing creation times. */
  predicate Chronological(rows: seq<EmailRow>) {
    forall i, j :: 0 <= i < j < |rows| ==> rows[i].creationTime < rows[j].creationTime
  }

  /**
   * `getEmailsByUser`: the `by_createdBy` index read in descending order, which for one sender
   * is descending creation time, then mapped to views.
   */
  function EmailsByUser(rows: seq<EmailRow>, createdBy: string): (r: seq<EmailView>)
    ensures |r| <= |rows|
    ensures forall k :: 0 <= k < |r| ==> r[k].email.createdBy == createdBy
  {
    if rows == [] then []
    else
      var last := rows[|rows| - 1];
      (if last.email.createdBy == createdBy then [View(last)] else [])
        + EmailsByUser(rows[..|rows| - 1], createdBy)
  }

  /** The number of rows from one sender. */
  function CountBy(rows: seq<EmailRow>, createdBy: string): nat {
    if rows == [] then 0
    else CountBy(rows[..|rows| - 1], createdBy) + (if rows[|rows| - 1].email.createdBy == createdBy then 1 else 0)
  }

  class EmailsTable {
    var rows: seq<EmailRow>
    var nextId: nat
    /** The database's clock; every insert is stamped with a later time than the one before. */
    var clock: int

    ghost predicate Valid()
      reads this
    {
      Chronological(rows)
      && (forall i :: 0 <= i < |rows| ==> rows[i].id < nextId && rows[i].creationTime < clock)
    }

    constructor (start: int)
      ensures Valid() && rows == []
    {
      rows, nextId, clock := [], 0, start;
    }

    /** `createEmail`: inserts the email and returns its id. */
    method CreateEmail(e: Email) returns (id: nat)
      requires Valid()
      modifies this
      ensures Valid()
      ensures rows == old(rows) + [EmailRow(id, old(clock), e)]
      ensures forall i :: 0 <= i < |old(rows)| ==> old(rows)[i].id != id
    {
      id := nextId;
      rows := rows + [EmailRow(id, clock, e)];
      nextId := nextId + 1;
      clock := clock + 1;
    }
  }

  // ---------------------------------------------------------------------------------
  // Proofs

  /** A newly created email heads its sender's list and leaves everyone else's list as it was. */
  lemma NewestFirst(rows: seq<EmailRow>, row: EmailRow, createdBy: string)
    ensures EmailsByUser(rows + [row], createdBy) ==
      if row.email.createdBy == createdBy then [View(row)] + EmailsByUser(rows, createdBy)
      else EmailsByUser(rows, createdBy)
  {
    assert (rows + [row])[..|rows|] == rows;
  }

  /** A view is listed exactly when a row of that sender produced it. */
  lemma {:induction false} EmailsByUserMembers(rows: seq<EmailRow>, createdBy: string, v: EmailView)
    ensures v in EmailsByUser(rows, createdBy) <==>
      exists i :: 0 <= i < |rows| && rows[i].email.createdBy == createdBy && View(rows[i]) == v
  {
    if rows != [] {
      var init := rows[..|rows| - 1];
      EmailsByUserMembers(init, createdBy, v);
      if exists i :: 0 <= i < |rows| && rows[i].email.createdBy == createdBy && View(rows[i]) == v {
        var i :| 0 <= i < |rows| && rows[i].email.createdBy == createdBy && View(rows[i]) == v;
        if i < |init| {
          assert init[i] == rows[i];
        }
      }
      if v in EmailsByUser(init, createdBy) {
        var i :| 0 <= i < |init| && init[i].email.createdBy == createdBy && View(init[i]) == v;
        assert rows[i] == init[i];
      }
    }
  }

  /** The list has one entry per email of the sender. */
  lemma {:induction false} EmailsByUserCount(rows: seq<EmailRow>, createdBy: string)
    ensures |EmailsByUser(rows, createdBy)| == CountBy(rows, createdBy)
  {
    if rows != [] {
      EmailsByUserCount(rows[..|rows| - 1], createdBy);
    }
  }

  lemma {:induction false} EmailsByUserFrom(rows: seq<EmailRow>, createdBy: string, k: nat)
    requires k < |EmailsByUser(rows, createdBy)|
    ensures exists i :: 0 <= i < |rows| && View(rows[i]) == EmailsByUser(rows, createdBy)[k]
  {
    var v := EmailsByUser(rows, createdBy)[k];
    EmailsByUserMembers(rows, createdBy, v);
  }

  /** For a table whose rows were stamped in order, the list runs from the newest to the oldest. */
  lemma {:induction false} EmailsByUserDescending(rows: seq<EmailRow>, createdBy: string)
    requires Chronological(rows)
    ensures var r := EmailsByUser(rows, createdBy);
            forall k, l :: 0 <= k < l < |r| ==> r[k].createdAt > r[l].createdAt
  {
    if rows != [] {
      var init := rows[..|rows| - 1];
      var last := rows[|rows| - 1];
      ChronologicalInit(rows);
      EmailsByUserDescending(init, createdBy);
      var tail := EmailsByUser(init, createdBy);
      if last.email.createdBy == createdBy {
        forall l | 0 <= l < |tail|
          ensures tail[l].createdAt < last.creationTime
        {
          EmailsByUserFrom(init, createdBy, l);
        }
        ConsNewer(View(last), tail);
      } else {
        assert EmailsByUser(rows, createdBy) == [] + tail;
        assert [] + tail == tail;
      }
    }
  }

  /** Without its last row a chronological table is still chronological, and that row is the newest. */
  lemma ChronologicalInit(rows: seq<EmailRow>)
    requires Chronological(rows) && rows != []
    ensures Chronological(rows[..|rows| - 1])
    ensures forall i :: 0 <= i < |rows| - 1 ==> rows[i].creationTime < rows[|rows| - 1].creationTime
  {
  }

  lemma ConsNewer(v: EmailView, tail: seq<EmailView>)
    requires forall k, l :: 0 <= k < l < |tail| ==> tail[k].createdAt > tail[l].createdAt
    requires forall l :: 0 <= l < |tail| ==> tail[l].createdAt < v.createdAt
    ensures var r := [v] + tail; forall k, l :: 0 <= k < l < |r| ==> r[k].createdAt > r[l].createdAt
  {
    var r := [v] + tail;
    forall k, l | 0 <= k < l < |r| ensures r[k].createdAt > r[l].createdAt {
      assert r[l] == tail[l - 1];
      if k > 0 {
        assert r[k] == tail[k - 1];
      }
    }
  }
}
