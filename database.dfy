/**
 * The two tables that `init_db` in database.py creates, the constraints their schema puts
 * on the rows, and the audit query behind the dashboard's recent-activity list.
 *
 * `created_at` and `last_login` are readings of a logical clock in seconds; the SQL
 * `datetime('now')` that produces them is not modelled.
 */
module Database {
  import opened Wrappers

  /**
   * One row of `users`. The email column is NOT NULL UNIQUE, so the table is a map keyed by
   * email; full_name and password_hash are NOT NULL text; phone and last_login may be null
   * (the registration handler always stores a phone string, possibly empty).
   */
  datatype UserRow = UserRow(
    id: nat,
    fullName: string,
    phone: string,
    passwordHash: string,
    consent: int,
    createdAt: nat,
    lastLogin: Option<nat>)

  /** One row of `audit_logs`; email and ip are nullable and email is no foreign key. */
  datatype AuditEntry = AuditEntry(
    id: nat,
    event: string,
    email: Option<string>,
    ip: Option<string>,
    createdAt: nat)

  type Users = map<string, UserRow>

  /** A user row whose AUTOINCREMENT id was handed out and whose timestamps are in the past. */
  ghost predicate RowWellFormed(row: UserRow, nextId: nat, now: nat) {
    0 < row.id < nextId &&
    row.createdAt <= now &&
    (row.lastLogin.Some? ==> row.createdAt <= row.lastLogin.value <= now)
  }

  /** The `users` table: ids start at 1, rows well formed, and no id shared by two emails. */
  ghost predicate UsersWellFormed(users: Users, nextId: nat, now: nat) {
    0 < nextId &&
    (forall e :: e in users ==> RowWellFormed(users[e], nextId, now)) &&
    (forall e1, e2 :: e1 in users && e2 in users && users[e1].id == users[e2].id ==> e1 == e2)
  }

  /** Rows appear in the order they were inserted: ids strictly increase, timestamps do not decrease. */
  ghost predicate Chronological(audit: seq<AuditEntry>) {
    forall i, j :: 0 <= i < j < |audit| ==> audit[i].id < audit[j].id && audit[i].createdAt <= audit[j].createdAt
  }

  /** The `audit_logs` table: ids start at 1 and were handed out, timestamps in the past, insertion order kept. */
  ghost predicate AuditWellFormed(audit: seq<AuditEntry>, nextId: nat, now: nat) {
    0 < nextId &&
    (forall i :: 0 <= i < |audit| ==> 0 < audit[i].id < nextId && audit[i].createdAt <= now) &&
    Chronological(audit)
  }

  /** Appending a row with the next id and the current time keeps the table well formed. */
  lemma AppendWellFormed(audit: seq<AuditEntry>, nextId: nat, now: nat, x: AuditEntry)
    requires AuditWellFormed(audit, nextId, now)
    requires x.id == nextId && x.createdAt == now
    ensures AuditWellFormed(audit + [x], nextId + 1, now)
  {
    var a := audit + [x];
    forall i | 0 <= i < |a| ensures 0 < a[i].id < nextId + 1 && a[i].createdAt <= now {
      if i < |audit| { assert a[i] == audit[i]; }
    }
    forall i, j | 0 <= i < j < |a| ensures a[i].id < a[j].id && a[i].createdAt <= a[j].createdAt {
      assert a[i] == audit[i];
    }
  }

  /** Inserting a row under a new email with the next id and the current time keeps the table well formed. */
  lemma InsertWellFormed(users: Users, nextId: nat, now: nat, email: string, row: UserRow)
    requires UsersWellFormed(users, nextId, now) && email !in users
    requires row.id == nextId && row.createdAt <= now
    requires row.lastLogin.Some? ==> row.createdAt <= row.lastLogin.value <= now
    ensures UsersWellFormed(users[email := row], nextId + 1, now)
  {
    var u := users[email := row];
    forall e | e in u ensures RowWellFormed(u[e], nextId + 1, now) {
      if e != email { assert RowWellFormed(users[e], nextId, now); }
    }
  }

  /**
   * `SELECT ... FROM audit_logs WHERE email = ? ORDER BY created_at DESC LIMIT limit`:
   * the newest `limit` rows for `email`, newest first. Rows with equal created_at come in
   * reverse insertion order, which is one of the orders SQLite may return.
   */
  function Recent(audit: seq<AuditEntry>, email: string, limit: nat): seq<AuditEntry>
    decreases |audit|
  {
    if |audit| == 0 || limit == 0 then []
    else
      var last := audit[|audit| - 1];
      if last.email == Some(email) then [last] + Recent(audit[..|audit| - 1], email, limit - 1)
      else Recent(audit[..|audit| - 1], email, limit)
  }

  /** At most `limit` rows, each of them a row of the table that names `email`. */
  lemma {:induction false} RecentRows(audit: seq<AuditEntry>, email: string, limit: nat)
    ensures var r := Recent(audit, email, limit);
      |r| <= limit &&
      forall k :: 0 <= k < |r| ==> r[k] in audit && r[k].email == Some(email)
    decreases |audit|
  {
    if |audit| > 0 && limit > 0 {
      var rest := audit[..|audit| - 1];
      var limit' := if audit[|audit| - 1].email == Some(email) then limit - 1 else limit;
      RecentRows(rest, email, limit');
      var r' := Recent(rest, email, limit');
      forall k | 0 <= k < |r'| ensures r'[k] in audit {
        var x := r'[k];
        var i :| 0 <= i < |rest| && rest[i] == x;
        assert audit[i] == x;
      }
    }
  }

  lemma PrefixChronological(audit: seq<AuditEntry>, n: nat)
    requires Chronological(audit) && n <= |audit|
    ensures Chronological(audit[..n])
  {
    forall i, j | 0 <= i < j < n ensures audit[..n][i].id < audit[..n][j].id {
      assert audit[..n][i] == audit[i] && audit[..n][j] == audit[j];
    }
  }

  /** Every row in a prefix of a chronological table is older than the row that follows it. */
  lemma OlderThanLast(audit: seq<AuditEntry>, x: AuditEntry)
    requires Chronological(audit) && |audit| > 0
    requires x in audit[..|audit| - 1]
    ensures x.id < audit[|audit| - 1].id && x.createdAt <= audit[|audit| - 1].createdAt
  {
    var i :| 0 <= i < |audit| - 1 && audit[..|audit| - 1][i] == x;
    assert audit[i] == x;
  }

  /** On a chronological table the rows come newest first: ids fall, timestamps do not rise. */
  lemma {:induction false} RecentNewestFirst(audit: seq<AuditEntry>, email: string, limit: nat)
    requires Chronological(audit)
    ensures var r := Recent(audit, email, limit);
      forall a, b :: 0 <= a < b < |r| ==> r[b].id < r[a].id && r[b].createdAt <= r[a].createdAt
    decreases |audit|
  {
    if |audit| > 0 && limit > 0 {
      var n := |audit|;
      var rest := audit[..n - 1];
      var limit' := if audit[n - 1].email == Some(email) then limit - 1 else limit;
      PrefixChronological(audit, n - 1);
      RecentNewestFirst(rest, email, limit');
      if audit[n - 1].email == Some(email) {
        var r' := Recent(rest, email, limit');
        RecentRows(rest, email, limit');
        forall k | 0 <= k < |r'|
          ensures r'[k].id < audit[n - 1].id && r'[k].createdAt <= audit[n - 1].createdAt
        {
          OlderThanLast(audit, r'[k]);
        }
      }
    }
  }

  lemma MostRecentStep(x: AuditEntry, last: AuditEntry, r': seq<AuditEntry>)
    requires x.id < last.id
    requires forall k :: 0 <= k < |r'| ==> x.id < r'[k].id
    ensures forall k :: 0 <= k < |r'| + 1 ==> x.id < ([last] + r')[k].id
  {
    forall k | 0 <= k < |r'| + 1 ensures x.id < ([last] + r')[k].id {
      if k > 0 { assert ([last] + r')[k] == r'[k - 1]; }
    }
  }

  /**
   * Nothing newer is skipped: a row for `email` that is not listed is older than every row
   * that is, and is left out only because `limit` rows were already listed.
   */
  lemma {:induction false} RecentMostRecent(audit: seq<AuditEntry>, email: string, limit: nat)
    requires Chronological(audit)
    ensures var r := Recent(audit, email, limit);
      forall i :: 0 <= i < |audit| && audit[i].email == Some(email) && audit[i] !in r ==>
        |r| == limit && forall k :: 0 <= k < |r| ==> audit[i].id < r[k].id
    decreases |audit|
  {
    if |audit| > 0 && limit > 0 {
      var n := |audit|;
      var rest := audit[..n - 1];
      var matched := audit[n - 1].email == Some(email);
      var limit' := if matched then limit - 1 else limit;
      PrefixChronological(audit, n - 1);
      RecentMostRecent(rest, email, limit');
      RecentRows(rest, email, limit');
      var r := Recent(audit, email, limit);
      var r' := Recent(rest, email, limit');
      assert r == if matched then [audit[n - 1]] + r' else r';
      forall i | 0 <= i < n && audit[i].email == Some(email) && audit[i] !in r
        ensures |r| == limit && forall k :: 0 <= k < |r| ==> audit[i].id < r[k].id
      {
        assert i < n - 1 && rest[i] == audit[i];
        assert audit[i] !in r';
        if matched {
          MostRecentStep(audit[i], audit[n - 1], r');
        }
      }
    }
  }
}
