/**
 The email settings of the users: one row per user, changed by single statements
 and by short transactions that lock the row. Times are in microseconds. Tokens
 come from a generator, hashing is a function, and mail is handed to a transport
 that is not part of the model.
 */
module Notifications {
  import opened Wrappers

  datatype User = User(id: Text)

  datatype Token = Token(text: Text)

  datatype Hash = Hash(digest: Text)

  const MINUTE := 60_000_000

  datatype Row = Row(
    email: Text,
    verifiedAt: Option<int>,
    completed: bool,
    failed: bool,
    hash: Option<Hash>,
    expires: Option<int>,
    lastVerification: Option<int>,
    lastTest: Option<int>)

  type Rows = map<User, Row>

  const NOBODY := User(EMPTY)

  // ------------------------------------------------------------------------ save

  function NewRow(email: Text, completed: bool, failed: bool): Row {
    Row(email, None, completed, failed, None, None, None, None)
  }

  /** An update in which every expression sees the old row. */
  function SimultaneousUpdate(r: Row, email: Text, completed: bool, failed: bool): Row {
    if r.email == email then r.(completed := completed, failed := failed)
    else Row(email, None, completed, failed, None, None, r.lastVerification, r.lastTest)
  }

  /** The database assigns from left to right, and later expressions see earlier assignments. */
  function SequentialUpdate(r: Row, email: Text, completed: bool, failed: bool): Row {
    var r := r.(verifiedAt := if r.email == email then r.verifiedAt else None);
    var r := r.(hash := if r.email == email then r.hash else None);
    var r := r.(expires := if r.email == email then r.expires else None);
    var r := r.(email := email);
    var r := r.(completed := completed);
    r.(failed := failed)
  }

  /** The same assignments with the address first. */
  function EmailFirstUpdate(r: Row, email: Text, completed: bool, failed: bool): Row {
    SequentialUpdate(r.(email := email), email, completed, failed)
  }

  /** The order of the assignments is what makes a changed address unverified. */
  lemma AssignmentOrder(r: Row, email: Text, completed: bool, failed: bool)
    ensures SequentialUpdate(r, email, completed, failed) == SimultaneousUpdate(r, email, completed, failed)
    ensures EmailFirstUpdate(r, email, completed, failed) == SimultaneousUpdate(r, email, completed, failed)
            <==> r.email == email || (r.verifiedAt == None && r.hash == None && r.expires == None)
  {
  }

  /** `normal` is the address after normalization, if it is one. */
  function SaveOp(rows: Rows, user: User, normal: Option<Text>, completed: bool, failed: bool, fault: Fault)
    : (Rows, bool)
  {
    if user == NOBODY || normal == None || fault == Lost then (rows, false)
    else
      var row := if user in rows then SimultaneousUpdate(rows[user], normal.value, completed, failed)
                 else NewRow(normal.value, completed, failed);
      (rows[user := row], fault == NoFault)
  }

  // ---------------------------------------------------------------- verification

  datatype Refusal = NoUser | NotConfigured | NoRow | NoEmail | RateLimited | Unverified | DatabaseError

  /** Either an address to which mail may go now, or a reason why not. */
  datatype Reply = Granted(email: Text) | Refused(reason: Refusal)

  predicate Cooling(last: Option<int>, now: int) {
    last.Some? && now - last.value < MINUTE
  }

  function RequestOp(rows: Rows, user: User, configured: bool, hash: Hash, now: int, fault: Fault): (Rows, Reply) {
    if user == NOBODY then (rows, Refused(NoUser))
    else if !configured then (rows, Refused(NotConfigured))
    else if user !in rows then (rows, Refused(NoRow))
    else if rows[user].email == EMPTY then (rows, Refused(NoEmail))
    else if Cooling(rows[user].lastVerification, now) then (rows, Refused(RateLimited))
    else if fault == Lost then (rows, Refused(DatabaseError))
    else
      var row := rows[user].(hash := Some(hash), expires := Some(now + 30 * MINUTE), lastVerification := Some(now));
      (rows[user := row], if fault == NoFault then Granted(row.email) else Refused(DatabaseError))
  }

  /** The condition of the UPDATE. */
  predicate Confirms(rows: Rows, user: User, hash: Hash, now: int) {
    && user in rows && rows[user].hash == Some(hash)
    && rows[user].expires.Some? && rows[user].expires.value > now
    && rows[user].email != EMPTY
  }

  /** `at` is what the row records, `now` what the expiry is compared with. */
  function VerifyOp(rows: Rows, user: User, hash: Hash, at: int, now: int, fault: Fault): (Rows, bool) {
    if user == NOBODY || fault == Lost || !Confirms(rows, user, hash, now) then (rows, false)
    else
      (rows[user := rows[user].(verifiedAt := Some(at), hash := None, expires := None)], fault == NoFault)
  }

  // ------------------------------------------------------------------ test, notify

  function TestReserveOp(rows: Rows, user: User, configured: bool, now: int, fault: Fault): (Rows, Reply) {
    if user == NOBODY then (rows, Refused(NoUser))
    else if !configured then (rows, Refused(NotConfigured))
    else if user !in rows || rows[user].verifiedAt == None || rows[user].email == EMPTY then (rows, Refused(Unverified))
    else if Cooling(rows[user].lastTest, now) then (rows, Refused(RateLimited))
    else if fault == Lost then (rows, Refused(DatabaseError))
    else
      (rows[user := rows[user].(lastTest := Some(now))],
       if fault == NoFault then Granted(rows[user].email) else Refused(DatabaseError))
  }

  /** The second look at the row, just before the mail is sent under the lock. */
  function TestDeliverOp(rows: Rows, user: User, email: Text): Reply {
    if user !in rows then Refused(NoRow)
    else if rows[user].verifiedAt == None || rows[user].email != email then Refused(Unverified)
    else Granted(email)
  }

  datatype Event = JobCompleted | JobFailed

  /** The address that hears of the end of a job, if anybody does. */
  function NotifyOp(rows: Rows, user: User, event: Event): Option<Text> {
    if user == NOBODY || user !in rows then None
    else
      var r := rows[user];
      if r.verifiedAt == None || r.email == EMPTY || !(if event == JobCompleted then r.completed else r.failed)
      then None else Some(r.email)
  }

  class Service {
    var rows: Rows

    constructor ()
      ensures rows == map[]
    {
      rows := map[];
    }

    /** INSERT ... ON DUPLICATE KEY UPDATE, one assignment after the other. */
    method Save(user: User, normal: Option<Text>, completed: bool, failed: bool, fault: Fault) returns (ok: bool)
      modifies this
      ensures (rows, ok) == SaveOp(old(rows), user, normal, completed, failed, fault)
    {
      if user == NOBODY || normal == None || fault == Lost {
        return false;
      }
      var email := normal.value;
      if user in rows {
        var row := rows[user];
        row := row.(verifiedAt := if row.email == email then row.verifiedAt else None);
        row := row.(hash := if row.email == email then row.hash else None);
        row := row.(expires := if row.email == email then row.expires else None);
        row := row.(email := email);
        row := row.(completed := completed);
        row := row.(failed := failed);
        rows := rows[user := row];
      } else {
        rows := rows[user := NewRow(email, completed, failed)];
      }
      ok := fault == NoFault;
    }

    /** A granted request is followed by the mail with the token. */
    method RequestVerification(user: User, configured: bool, hash: Hash, now: int, fault: Fault) returns (reply: Reply)
      modifies this
      ensures (rows, reply) == RequestOp(old(rows), user, configured, hash, now, fault)
    {
      if user == NOBODY {
        return Refused(NoUser);
      }
      if !configured {
        return Refused(NotConfigured);
      }
      if user !in rows {
        return Refused(NoRow);
      }
      var email, last := rows[user].email, rows[user].lastVerification;
      if email == EMPTY {
        return Refused(NoEmail);
      }
      if last.Some? && now - last.value < MINUTE {
        return Refused(RateLimited);
      }
      if fault != Lost {
        rows := rows[user := rows[user].(hash := Some(hash), expires := Some(now + 30 * MINUTE),
                                         lastVerification := Some(now))];
      }
      reply := if fault == NoFault then Granted(email) else Refused(DatabaseError);
    }

    /** `hash` is the hash of the presented token, if it is well formed. */
    method Verify(user: User, hash: Option<Hash>, at: int, now: int, fault: Fault) returns (ok: bool)
      modifies this
      ensures hash.Some? ==> (rows, ok) == VerifyOp(old(rows), user, hash.value, at, now, fault)
      ensures hash == None ==> rows == old(rows) && !ok
    {
      if user == NOBODY || hash == None || fault == Lost {
        return false;
      }
      var affected := 0;
      if Confirms(rows, user, hash.value, now) {
        rows := rows[user := rows[user].(verifiedAt := Some(at), hash := None, expires := None)];
        affected := 1;
      }
      ok := fault == NoFault && affected == 1;
    }

    /** The first transaction of a test mail. */
    method TestReserve(user: User, configured: bool, now: int, fault: Fault) returns (reply: Reply)
      modifies this
      ensures (rows, reply) == TestReserveOp(old(rows), user, configured, now, fault)
    {
      if user == NOBODY {
        return Refused(NoUser);
      }
      if !configured {
        return Refused(NotConfigured);
      }
      if user !in rows {
        return Refused(Unverified);
      }
      var row := rows[user];
      if row.verifiedAt == None || row.email == EMPTY {
        return Refused(Unverified);
      }
      if row.lastTest.Some? && now - row.lastTest.value < MINUTE {
        return Refused(RateLimited);
      }
      if fault != Lost {
        rows := rows[user := row.(lastTest := Some(now))];
      }
      reply := if fault == NoFault then Granted(row.email) else Refused(DatabaseError);
    }

    /** The second transaction of a test mail: the mail goes out while the row is locked. */
    method TestDeliver(user: User, email: Text) returns (reply: Reply)
      ensures reply == TestDeliverOp(rows, user, email)
      ensures reply.Granted? ==> user in rows && rows[user].verifiedAt.Some? && rows[user].email == email == reply.email
    {
      if user !in rows {
        return Refused(NoRow);
      }
      if rows[user].verifiedAt == None || rows[user].email != email {
        return Refused(Unverified);
      }
      reply := Granted(email);
    }

    /** The hook of the queue: guests, disabled events and unverified addresses hear nothing. */
    method Notify(user: User, event: Event) returns (email: Option<Text>)
      ensures email == NotifyOp(rows, user, event)
      ensures email.Some? ==> user in rows && rows[user].verifiedAt.Some? && rows[user].email == email.value != EMPTY
    {
      if user == NOBODY || user !in rows {
        return None;
      }
      var row := rows[user];
      if row.verifiedAt == None || row.email == EMPTY {
        return None;
      }
      if (event == JobCompleted && !row.completed) || (event == JobFailed && !row.failed) {
        return None;
      }
      email := Some(row.email);
    }
  }
}
