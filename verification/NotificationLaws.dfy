/**
 The requests of the email settings in plain terms: when each succeeds, what the
 caller is told otherwise, and what a row goes through from the first request to
 the first notification.
 */
module NotificationLaws {
  import opened Notifications
  import opened Wrappers

  /** Nobody else's row changes. */
  ghost predicate OnlyRow(rows: Rows, rows': Rows, user: User) {
    forall u :: u != user ==> (u in rows' <==> u in rows) && (u in rows ==> rows'[u] == rows[u])
  }

  /** Settings are saved; a new address is unverified, and the two cooldowns go on. */
  lemma SaveExact(rows: Rows, user: User, normal: Option<Text>, completed: bool, failed: bool, fault: Fault)
    ensures var (rows', ok) := SaveOp(rows, user, normal, completed, failed, fault);
            var valid := user.id != EMPTY && normal.Some?;
            && (ok <==> valid && fault == NoFault) && OnlyRow(rows, rows', user)
            && (!valid || fault == Lost ==> rows' == rows)
            && (valid && fault != Lost ==>
                  && user in rows' && rows'[user].email == normal.value
                  && rows'[user].completed == completed && rows'[user].failed == failed
                  && (if user in rows && rows[user].email == normal.value then
                        && rows'[user].verifiedAt == rows[user].verifiedAt
                        && rows'[user].hash == rows[user].hash && rows'[user].expires == rows[user].expires
                      else rows'[user].verifiedAt == None && rows'[user].hash == None && rows'[user].expires == None)
                  && (if user in rows then
                        && rows'[user].lastVerification == rows[user].lastVerification
                        && rows'[user].lastTest == rows[user].lastTest
                      else rows'[user].lastVerification == None && rows'[user].lastTest == None))
  {
  }

  /** Less than a minute ago, in microseconds. */
  predicate Recent(last: Option<int>, now: int) {
    last.Some? && now < last.value + 60_000_000
  }

  lemma RequestExact(rows: Rows, user: User, configured: bool, hash: Hash, now: int, fault: Fault)
    ensures var (rows', reply) := RequestOp(rows, user, configured, hash, now, fault);
            var known := user.id != EMPTY && configured && user in rows;
            var free := known && rows[user].email != EMPTY && !Recent(rows[user].lastVerification, now);
            && (reply.Granted? <==> free && fault == NoFault)
            && (reply.Granted? ==> reply.email == rows[user].email)
            && (reply == Refused(NoUser) <==> user.id == EMPTY)
            && (reply == Refused(NotConfigured) <==> user.id != EMPTY && !configured)
            && (reply == Refused(NoRow) <==> user.id != EMPTY && configured && user !in rows)
            && (reply == Refused(NoEmail) <==> known && rows[user].email == EMPTY)
            && (reply == Refused(RateLimited) <==>
                  known && rows[user].email != EMPTY && Recent(rows[user].lastVerification, now))
            && (reply == Refused(DatabaseError) <==> free && fault != NoFault)
            && rows' == if free && fault != Lost
                        then rows[user := rows[user].(hash := Some(hash), expires := Some(now + 1_800_000_000),
                                                      lastVerification := Some(now))]
                        else rows
  {
  }

  lemma VerifyExact(rows: Rows, user: User, hash: Hash, at: int, now: int, fault: Fault)
    ensures var (rows', ok) := VerifyOp(rows, user, hash, at, now, fault);
            var matches := user.id != EMPTY && user in rows && rows[user].email != EMPTY
                           && rows[user].hash == Some(hash) && rows[user].expires.Some?
                           && now < rows[user].expires.value;
            && (ok <==> matches && fault == NoFault)
            && rows' == if matches && fault != Lost
                        then rows[user := rows[user].(verifiedAt := Some(at), hash := None, expires := None)] else rows
  {
  }

  lemma TestReserveExact(rows: Rows, user: User, configured: bool, now: int, fault: Fault)
    ensures var (rows', reply) := TestReserveOp(rows, user, configured, now, fault);
            var verified := user.id != EMPTY && configured && user in rows && rows[user].verifiedAt.Some?
                            && rows[user].email != EMPTY;
            var free := verified && !Recent(rows[user].lastTest, now);
            && (reply.Granted? <==> free && fault == NoFault)
            && (reply.Granted? ==> reply.email == rows[user].email)
            && (reply == Refused(NoUser) <==> user.id == EMPTY)
            && (reply == Refused(NotConfigured) <==> user.id != EMPTY && !configured)
            && (reply == Refused(Unverified) <==> user.id != EMPTY && configured && !verified)
            && (reply == Refused(RateLimited) <==> verified && Recent(rows[user].lastTest, now))
            && (reply == Refused(DatabaseError) <==> free && fault != NoFault)
            && rows' == if free && fault != Lost then rows[user := rows[user].(lastTest := Some(now))] else rows
  {
  }

  lemma TestDeliverExact(rows: Rows, user: User, email: Text)
    ensures var reply := TestDeliverOp(rows, user, email);
            && (reply == Granted(email) <==> user in rows && rows[user].verifiedAt.Some? && rows[user].email == email)
            && (reply == Refused(NoRow) <==> user !in rows)
            && (reply.Granted? || reply == Refused(NoRow) || reply == Refused(Unverified))
            && (reply.Granted? ==> reply.email == email)
  {
  }

  /** The end of a job is told to those who asked for that kind of end, at a verified address. */
  lemma NotifyExact(rows: Rows, user: User, event: Event)
    ensures var email := NotifyOp(rows, user, event);
            && (email.Some? <==>
                  && user.id != EMPTY && user in rows && rows[user].verifiedAt.Some? && rows[user].email != EMPTY
                  && (event == JobCompleted ==> rows[user].completed) && (event == JobFailed ==> rows[user].failed))
            && (email.Some? ==> email.value == rows[user].email)
  {
  }

  /**
   From the settings to a notification: a saved address, a mail to it, the token
   brought back within 30 minutes, whatever flags are saved in between, and the
   events that were asked for arrive; a second use of the token does nothing.
   */
  lemma FullCircle(rows: Rows, user: User, email: Text, hash: Hash, t0: int, t1: int, at: int, event: Event,
                   completed: bool, failed: bool)
    requires user.id != EMPTY && email != EMPTY && t1 < t0 + 1_800_000_000
    requires user in rows ==> !Recent(rows[user].lastVerification, t0)
    ensures var saved := SaveOp(rows, user, Some(email), true, true, NoFault).0;
            var (asked, reply) := RequestOp(saved, user, true, hash, t0, NoFault);
            var changed := SaveOp(asked, user, Some(email), completed, failed, NoFault).0;
            var (verified, ok) := VerifyOp(changed, user, hash, at, t1, NoFault);
            && reply == Granted(email) && ok && verified[user].verifiedAt == Some(at)
            && (NotifyOp(verified, user, event) == Some(email) <==> if event == JobCompleted then completed else failed)
            && !VerifyOp(verified, user, hash, at, t1, NoFault).1
  {
  }

  /** A new address in between voids the token and silences the notifications. */
  lemma ChangedAddress(rows: Rows, user: User, email: Text, hash: Hash, at: int, now: int, event: Event,
                       completed: bool, failed: bool)
    requires user in rows && rows[user].email != email && user.id != EMPTY
    ensures var changed := SaveOp(rows, user, Some(email), completed, failed, NoFault).0;
            && !VerifyOp(changed, user, hash, at, now, NoFault).1
            && NotifyOp(changed, user, event) == None
            && TestReserveOp(changed, user, true, now, NoFault).1 == Refused(Unverified)
  {
  }
}
