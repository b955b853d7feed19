/**
 Every step of the email settings keeps the invariant.
 */
module NotificationSafety {
  import opened NotificationHistory
  import opened Notifications
  import opened Wrappers

  /** Issued tokens and reservations stay, mails and confirmations are only added. */
  ghost predicate Grows(a: History, b: History) {
    && (forall t :: t in a.issued ==> t in b.issued && b.issued[t] == a.issued[t])
    && a.sent <= b.sent && a.confirmations <= b.confirmations
    && (forall u :: Times(a.requests, u) <= Times(b.requests, u))
    && forall u :: Times(a.tests, u) <= Times(b.tests, u)
  }

  lemma MailGrows(a: History, b: History, m: Mail)
    requires Grows(a, b) && MailInv(a, m)
    ensures MailInv(b, m)
  {
  }

  /** A row that keeps its address, and of the rest at most loses something, stays justified. */
  lemma RowKept(h: Token -> Hash, a: History, b: History, u: User, r: Row, r': Row)
    requires RowInv(h, a, u, r) && Grows(a, b) && Epoch(a, u) == Epoch(b, u) && r'.email == r.email
    requires r'.verifiedAt.Some? ==> r.verifiedAt.Some?
    requires r'.hash.Some? ==> r'.hash == r.hash && r'.expires == r.expires
    requires r'.hash.Some? ==> forall t :: HashInv(h, a, u, r, t) ==> !Confirmed(b, t)
    ensures RowInv(h, b, u, r')
  {
    if r'.hash.Some? {
      var t :| HashInv(h, a, u, r, t);
      assert HashInv(h, b, u, r', t);
    }
    if r'.verifiedAt.Some? {
      var c :| c in a.confirmations && VerifiedBy(a, u, r, c);
      var i :| 0 <= i < |a.confirmations| && a.confirmations[i] == c;
      assert b.confirmations[i] == c;
      assert VerifiedBy(b, u, r', c);
    }
  }

  /** Nothing confirmed in between. */
  lemma RowKeptQuietly(h: Token -> Hash, a: History, b: History, u: User, r: Row, r': Row)
    requires RowInv(h, a, u, r) && Grows(a, b) && Epoch(a, u) == Epoch(b, u) && r'.email == r.email
    requires r'.verifiedAt.Some? ==> r.verifiedAt.Some?
    requires r'.hash.Some? ==> r'.hash == r.hash && r'.expires == r.expires
    requires b.confirmations == a.confirmations
    ensures RowInv(h, b, u, r')
  {
    hide RowInv, Grows;
    RowKept(h, a, b, u, r, r');
  }

  // ------------------------------------------------------------------------------ rows

  lemma SaveRows(h: Token -> Hash, s: State, user: User, normal: Option<Text>, completed: bool, failed: bool,
                 fault: Fault)
    requires RowsInv(h, s)
    ensures RowsInv(h, SaveStep(s, user, normal, completed, failed, fault))
  {
    var s' := SaveStep(s, user, normal, completed, failed, fault);
    forall u | u in s'.rows ensures RowInv(h, s'.hist, u, s'.rows[u]) {
      if u in s.rows && s'.rows[u].email == s.rows[u].email {
        RowKeptQuietly(h, s.hist, s'.hist, u, s.rows[u], s'.rows[u]);
      }
    }
  }

  /** A justified row may be given the hash of a token that stands for it. */
  lemma HashAdded(h: Token -> Hash, hist: History, u: User, r: Row, r': Row, token: Token)
    requires RowInv(h, hist, u, r.(hash := None)) && HashInv(h, hist, u, r', token)
    requires r'.email == r.email && r'.verifiedAt == r.verifiedAt
    ensures RowInv(h, hist, u, r')
  {
    if r'.verifiedAt.Some? {
      var c :| c in hist.confirmations && VerifiedBy(hist, u, r.(hash := None), c);
      assert VerifiedBy(hist, u, r', c);
    }
  }

  lemma RequestFrame(h: Token -> Hash, s: State, user: User, configured: bool, token: Token, now: int, fault: Fault)
    requires token !in s.hist.issued
    ensures var s' := RequestStep(h, s, user, configured, token, now, fault);
            && Grows(s.hist, s'.hist) && s'.hist.confirmations == s.hist.confirmations
            && s'.hist.epochs == s.hist.epochs && s'.rows.Keys == s.rows.Keys
            && forall u :: u in s.rows && u != user ==> s'.rows[u] == s.rows[u]
  {
  }

  lemma RequestHash(h: Token -> Hash, s: State, user: User, configured: bool, token: Token, now: int, fault: Fault)
    requires ConfirmationsInv(s.hist) && token !in s.hist.issued && user in s.rows
    ensures var s' := RequestStep(h, s, user, configured, token, now, fault);
            && user in s'.rows
            && var r, r' := s.rows[user], s'.rows[user];
               && r'.email == r.email && r'.verifiedAt == r.verifiedAt
               && (r' == r || HashInv(h, s'.hist, user, r', token))
  {
    var s' := RequestStep(h, s, user, configured, token, now, fault);
    assert !Confirmed(s'.hist, token);
  }

  lemma RequestRows(h: Token -> Hash, s: State, user: User, configured: bool, token: Token, now: int, fault: Fault)
    requires RowsInv(h, s) && ConfirmationsInv(s.hist) && token !in s.hist.issued
    ensures RowsInv(h, RequestStep(h, s, user, configured, token, now, fault))
  {
    hide RowInv, HashInv, VerifiedBy, Grows, RequestStep, ConfirmationsInv;
    var s' := RequestStep(h, s, user, configured, token, now, fault);
    RequestFrame(h, s, user, configured, token, now, fault);
    if user in s.rows {
      RequestHash(h, s, user, configured, token, now, fault);
    }
    forall u | u in s'.rows ensures RowInv(h, s'.hist, u, s'.rows[u]) {
      if s'.rows[u] == s.rows[u] {
        RowKeptQuietly(h, s.hist, s'.hist, u, s.rows[u], s'.rows[u]);
      } else {
        RowKeptQuietly(h, s.hist, s'.hist, u, s.rows[u], s.rows[u].(hash := None));
        HashAdded(h, s'.hist, u, s.rows[u], s'.rows[u], token);
      }
    }
  }

  /** Who confirms has the token of the row. */
  lemma ConfirmsToken(h: Token -> Hash, s: State, user: User, token: Token, now: int)
    requires Injective(h) && RowsInv(h, s) && Confirms(s.rows, user, h(token), now)
    ensures HashInv(h, s.hist, user, s.rows[user], token)
  {
  }

  lemma VerifyRows(h: Token -> Hash, s: State, user: User, token: Token, at: int, now: int, fault: Fault)
    requires Injective(h) && RowsInv(h, s)
    ensures RowsInv(h, VerifyStep(h, s, user, token, at, now, fault))
  {
    var s' := VerifyStep(h, s, user, token, at, now, fault);
    if s'.hist != s.hist {
      ConfirmsToken(h, s, user, token, now);
      var c := Confirmation(token, user, now, |s.hist.sent|);
      assert s'.hist.confirmations == s.hist.confirmations + [c];
      forall u | u in s'.rows ensures RowInv(h, s'.hist, u, s'.rows[u]) {
        if u == user {
          assert c in s'.hist.confirmations && VerifiedBy(s'.hist, u, s'.rows[u], c);
        } else {
          forall t | HashInv(h, s.hist, u, s.rows[u], t) ensures !Confirmed(s'.hist, t) {
            ConfirmedNext(s.hist, s'.hist, c, t);
          }
          RowKept(h, s.hist, s'.hist, u, s.rows[u], s'.rows[u]);
        }
      }
    }
  }

  lemma ConfirmedNext(a: History, b: History, c: Confirmation, t: Token)
    requires b.confirmations == a.confirmations + [c] && !Confirmed(a, t) && c.token != t
    ensures !Confirmed(b, t)
  {
  }

  lemma TestReserveRows(h: Token -> Hash, s: State, user: User, configured: bool, now: int, fault: Fault)
    requires RowsInv(h, s)
    ensures RowsInv(h, TestReserveStep(s, user, configured, now, fault))
  {
    var s' := TestReserveStep(s, user, configured, now, fault);
    assert Grows(s.hist, s'.hist);
    forall u | u in s'.rows ensures RowInv(h, s'.hist, u, s'.rows[u]) {
      RowKeptQuietly(h, s.hist, s'.hist, u, s.rows[u], s'.rows[u]);
    }
  }

  /** Steps that send or drop mail leave the rows and their justification alone. */
  lemma SameRows(h: Token -> Hash, s: State, s': State)
    requires RowsInv(h, s) && s'.rows == s.rows && Grows(s.hist, s'.hist)
    requires s'.hist.confirmations == s.hist.confirmations && s'.hist.epochs == s.hist.epochs
    ensures RowsInv(h, s')
  {
    forall u | u in s'.rows ensures RowInv(h, s'.hist, u, s'.rows[u]) {
      RowKeptQuietly(h, s.hist, s'.hist, u, s.rows[u], s'.rows[u]);
    }
  }

  // --------------------------------------------------------------------- confirmations

  lemma VerifyConfirmations(h: Token -> Hash, s: State, user: User, token: Token, at: int, now: int, fault: Fault)
    requires Injective(h) && RowsInv(h, s) && ConfirmationsInv(s.hist) && Presentable(s.hist, token)
    ensures ConfirmationsInv(VerifyStep(h, s, user, token, at, now, fault).hist)
  {
    var s' := VerifyStep(h, s, user, token, at, now, fault);
    if s'.hist != s.hist {
      ConfirmsToken(h, s, user, token, now);
      assert s.hist.sent[..|s.hist.sent|] == s.hist.sent;
    }
  }

  lemma SameConfirmations(a: History, b: History)
    requires ConfirmationsInv(a) && Grows(a, b) && b.confirmations == a.confirmations
    ensures ConfirmationsInv(b)
  {
    forall c | c in b.confirmations ensures b.sent[..c.mails] == a.sent[..c.mails] {
    }
  }

  // -------------------------------------------------------------------------- cooldown

  lemma SpacedNext(times: seq<int>, last: Option<int>, now: int)
    requires Cooldown(times, last) && !Cooling(last, now)
    ensures Cooldown(times + [now], Some(now))
  {
  }

  /** Only the two reservations touch the times. */
  lemma SameCooldown(s: State, s': State)
    requires CooldownInv(s)
    requires forall u :: Times(s'.hist.requests, u) == Times(s.hist.requests, u)
    requires forall u :: Times(s'.hist.tests, u) == Times(s.hist.tests, u)
    requires forall u :: LastVerification(s'.rows, u) == LastVerification(s.rows, u)
    requires forall u :: LastTest(s'.rows, u) == LastTest(s.rows, u)
    ensures CooldownInv(s')
  {
    hide Cooldown, Times, LastVerification, LastTest;
  }

  lemma RequestCooldown(h: Token -> Hash, s: State, user: User, configured: bool, token: Token, now: int, fault: Fault)
    requires CooldownInv(s)
    ensures CooldownInv(RequestStep(h, s, user, configured, token, now, fault))
  {
    hide Cooldown;
    var s' := RequestStep(h, s, user, configured, token, now, fault);
    forall u
      ensures Cooldown(Times(s'.hist.requests, u), LastVerification(s'.rows, u))
      ensures Cooldown(Times(s'.hist.tests, u), LastTest(s'.rows, u))
    {
      assert Cooldown(Times(s.hist.requests, u), LastVerification(s.rows, u));
      if u == user && s'.hist != s.hist {
        SpacedNext(Times(s.hist.requests, user), s.rows[user].lastVerification, now);
      }
    }
  }

  lemma TestReserveCooldown(s: State, user: User, configured: bool, now: int, fault: Fault)
    requires CooldownInv(s)
    ensures CooldownInv(TestReserveStep(s, user, configured, now, fault))
  {
    hide Cooldown;
    var s' := TestReserveStep(s, user, configured, now, fault);
    forall u
      ensures Cooldown(Times(s'.hist.requests, u), LastVerification(s'.rows, u))
      ensures Cooldown(Times(s'.hist.tests, u), LastTest(s'.rows, u))
    {
      assert Cooldown(Times(s.hist.requests, u), LastVerification(s.rows, u));
      if u == user && s'.hist != s.hist {
        SpacedNext(Times(s.hist.tests, user), s.rows[user].lastTest, now);
      }
    }
  }

  /** A reservation is later than all before it, so it is none of them. */
  lemma {:induction false} SpacedNew(times: seq<int>, last: Option<int>, now: int)
    requires Cooldown(times, last) && !Cooling(last, now)
    ensures now !in times
  {
    forall i | 0 <= i < |times| ensures times[i] < now {
      SpacedUpTo(times, i, |times| - 1);
    }
  }

  /** Between two reservations there is a minute for every step of the list. */
  lemma {:induction false} SpacedUpTo(times: seq<int>, i: int, k: int)
    requires Spaced(times) && 0 <= i <= k < |times|
    ensures times[i] + (k - i) * MINUTE <= times[k]
    decreases k
  {
    if i < k {
      SpacedUpTo(times, i, k - 1);
    }
  }

  // ----------------------------------------------------------------------------- mails

  lemma FewerMails(s: State, s': State)
    requires MailsInv(s) && Grows(s.hist, s'.hist) && s'.pending <= s.pending && s'.hist.sent == s.hist.sent
    ensures MailsInv(s')
  {
  }

  /** A mail for a new reservation joins the pending ones. */
  lemma NewMail(s: State, s': State, m: Mail)
    requires MailsInv(s) && Grows(s.hist, s'.hist) && s'.pending == s.pending + {m} && s'.hist.sent == s.hist.sent
    requires m.kind != NotifyMail && MailInv(s'.hist, m)
    requires forall n :: n in s.pending ==> !SameReservation(m, n)
    requires forall e :: e in s.hist.sent ==> !SameReservation(m, e.mail)
    ensures MailsInv(s')
  {
    hide MailInv, Grows;
    forall n | n in s.pending ensures MailInv(s'.hist, n) {
      MailGrows(s.hist, s'.hist, n);
    }
    forall e | e in s'.hist.sent ensures MailInv(s'.hist, e.mail) {
      MailGrows(s.hist, s'.hist, e.mail);
    }
  }

  /** A pending mail is handed over. */
  lemma SentMail(s: State, s': State, m: Mail, row: Option<Row>)
    requires MailsInv(s) && m in s.pending && s'.pending == s.pending - {m}
    requires s'.hist == s.hist.(sent := s.hist.sent + [Sent(m, row)])
    ensures MailsInv(s')
  {
    assert Grows(s.hist, s'.hist);
    hide MailInv, Grows;
    forall n | n in s.pending ensures MailInv(s'.hist, n) {
      MailGrows(s.hist, s'.hist, n);
    }
    forall e | e in s.hist.sent ensures MailInv(s'.hist, e.mail) {
      MailGrows(s.hist, s'.hist, e.mail);
    }
    forall i, k | 0 <= i < k < |s'.hist.sent| ensures !SameReservation(s'.hist.sent[i].mail, s'.hist.sent[k].mail) {
      if k == |s.hist.sent| {
        assert s.hist.sent[i] in s.hist.sent;
      }
    }
  }

  lemma NotifyMails(s: State, user: User, event: Event, configured: bool)
    requires MailsInv(s)
    ensures MailsInv(NotifyStep(s, user, event, configured))
  {
    var s' := NotifyStep(s, user, event, configured);
    if s' != s {
      assert Grows(s.hist, s'.hist);
      hide Grows, NotifyOp;
      forall n | n in s.pending ensures MailInv(s'.hist, n) {
        MailGrows(s.hist, s'.hist, n);
      }
      forall e | e in s.hist.sent ensures MailInv(s'.hist, e.mail) {
        MailGrows(s.hist, s'.hist, e.mail);
      }
    }
  }

  lemma RequestMails(h: Token -> Hash, s: State, user: User, configured: bool, token: Token, now: int, fault: Fault)
    requires MailsInv(s) && CooldownInv(s) && token !in s.hist.issued
    ensures MailsInv(RequestStep(h, s, user, configured, token, now, fault))
  {
    var s' := RequestStep(h, s, user, configured, token, now, fault);
    assert Grows(s.hist, s'.hist);
    if s'.pending == s.pending {
      FewerMails(s, s');
    } else {
      var m := Mail(VerifyMail, user, s.rows[user].email, Some(token), now);
      SpacedNew(Times(s.hist.requests, user), LastVerification(s.rows, user), now);
      NewMail(s, s', m);
    }
  }

  lemma TestReserveMails(s: State, user: User, configured: bool, now: int, fault: Fault)
    requires MailsInv(s) && CooldownInv(s)
    ensures MailsInv(TestReserveStep(s, user, configured, now, fault))
  {
    var s' := TestReserveStep(s, user, configured, now, fault);
    assert Grows(s.hist, s'.hist);
    if s'.pending == s.pending {
      FewerMails(s, s');
    } else {
      var m := Mail(TestMail, user, s.rows[user].email, None, now);
      SpacedNew(Times(s.hist.tests, user), LastTest(s.rows, user), now);
      NewMail(s, s', m);
    }
  }

  // ------------------------------------------------------------------------------ steps

  lemma SaveInv(h: Token -> Hash, s: State, user: User, normal: Option<Text>, completed: bool, failed: bool,
                fault: Fault)
    requires Inv(h, s)
    ensures Inv(h, SaveStep(s, user, normal, completed, failed, fault))
  {
    hide RowsInv, ConfirmationsInv, CooldownInv, MailsInv, Grows, TargetsInv, SaveStep, Times;
    hide LastVerification, LastTest;
    var s' := SaveStep(s, user, normal, completed, failed, fault);
    SaveRows(h, s, user, normal, completed, failed, fault);
    SaveFrame(s, user, normal, completed, failed, fault);
    SameConfirmations(s.hist, s'.hist);
    SameCooldown(s, s');
    FewerMails(s, s');
    SameTargets(s.hist, s'.hist);
  }

  lemma SaveFrame(s: State, user: User, normal: Option<Text>, completed: bool, failed: bool, fault: Fault)
    ensures var s' := SaveStep(s, user, normal, completed, failed, fault);
            && s'.hist == s.hist.(epochs := s'.hist.epochs) && s'.pending == s.pending && Grows(s.hist, s'.hist)
            && forall u :: LastVerification(s'.rows, u) == LastVerification(s.rows, u)
                           && LastTest(s'.rows, u) == LastTest(s.rows, u)
  {
  }

  lemma SameTargets(a: History, b: History)
    requires TargetsInv(a) && b.sent == a.sent
    ensures TargetsInv(b)
  {
  }

  lemma RequestInv(h: Token -> Hash, s: State, user: User, configured: bool, token: Token, now: int, fault: Fault)
    requires Inv(h, s) && token !in s.hist.issued
    ensures Inv(h, RequestStep(h, s, user, configured, token, now, fault))
  {
    hide RowsInv, ConfirmationsInv, CooldownInv, MailsInv, TargetsInv, RequestOp;
    var s' := RequestStep(h, s, user, configured, token, now, fault);
    RequestRows(h, s, user, configured, token, now, fault);
    RequestCooldown(h, s, user, configured, token, now, fault);
    RequestMails(h, s, user, configured, token, now, fault);
    assert Grows(s.hist, s'.hist);
    SameConfirmations(s.hist, s'.hist);
    SameTargets(s.hist, s'.hist);
  }

  lemma VerifyInv(h: Token -> Hash, s: State, user: User, token: Token, at: int, now: int, fault: Fault)
    requires Injective(h) && Inv(h, s) && Presentable(s.hist, token)
    ensures Inv(h, VerifyStep(h, s, user, token, at, now, fault))
  {
    hide RowsInv, ConfirmationsInv, CooldownInv, MailsInv, Grows, TargetsInv, Injective, Presentable, VerifyStep, Times;
    hide LastVerification, LastTest;
    var s' := VerifyStep(h, s, user, token, at, now, fault);
    VerifyRows(h, s, user, token, at, now, fault);
    VerifyConfirmations(h, s, user, token, at, now, fault);
    VerifyFrame(h, s, user, token, at, now, fault);
    SameCooldown(s, s');
    FewerMails(s, s');
    SameTargets(s.hist, s'.hist);
  }

  lemma VerifyFrame(h: Token -> Hash, s: State, user: User, token: Token, at: int, now: int, fault: Fault)
    ensures var s' := VerifyStep(h, s, user, token, at, now, fault);
            && s'.hist == s.hist.(confirmations := s'.hist.confirmations)
            && s'.pending == s.pending && Grows(s.hist, s'.hist)
            && forall u :: LastVerification(s'.rows, u) == LastVerification(s.rows, u)
                           && LastTest(s'.rows, u) == LastTest(s.rows, u)
  {
  }

  lemma TestReserveInv(h: Token -> Hash, s: State, user: User, configured: bool, now: int, fault: Fault)
    requires Inv(h, s)
    ensures Inv(h, TestReserveStep(s, user, configured, now, fault))
  {
    hide RowsInv, ConfirmationsInv, CooldownInv, MailsInv, TargetsInv, TestReserveOp;
    var s' := TestReserveStep(s, user, configured, now, fault);
    TestReserveRows(h, s, user, configured, now, fault);
    TestReserveCooldown(s, user, configured, now, fault);
    TestReserveMails(s, user, configured, now, fault);
    assert Grows(s.hist, s'.hist);
    SameConfirmations(s.hist, s'.hist);
    SameTargets(s.hist, s'.hist);
  }

  /** Steps that only move mail. */
  lemma MailStepInv(h: Token -> Hash, s: State, s': State)
    requires Inv(h, s) && s'.rows == s.rows && Grows(s.hist, s'.hist)
    requires s'.hist == s.hist.(sent := s'.hist.sent)
    requires MailsInv(s') && TargetsInv(s'.hist)
    ensures Inv(h, s')
  {
    hide RowsInv, ConfirmationsInv, CooldownInv, MailsInv, Grows, TargetsInv;
    SameRows(h, s, s');
    SameConfirmations(s.hist, s'.hist);
    SameCooldown(s, s');
  }

  lemma SendInv(h: Token -> Hash, s: State, mail: Mail)
    requires Inv(h, s)
    ensures Inv(h, SendStep(s, mail))
  {
    var s' := SendStep(s, mail);
    if mail in s.pending && mail.kind == VerifyMail {
      SentMail(s, s', mail, RowOf(s.rows, mail.user));
      MailStepInv(h, s, s');
    }
  }

  lemma TestDeliverInv(h: Token -> Hash, s: State, mail: Mail)
    requires Inv(h, s)
    ensures Inv(h, TestDeliverStep(s, mail))
  {
    var s' := TestDeliverStep(s, mail);
    if mail in s.pending && mail.kind == TestMail {
      if s'.hist == s.hist {
        FewerMails(s, s');
      } else {
        SentMail(s, s', mail, RowOf(s.rows, mail.user));
      }
      MailStepInv(h, s, s');
    }
  }

  lemma NotifyInv(h: Token -> Hash, s: State, user: User, event: Event, configured: bool)
    requires Inv(h, s)
    ensures Inv(h, NotifyStep(s, user, event, configured))
  {
    var s' := NotifyStep(s, user, event, configured);
    NotifyMails(s, user, event, configured);
    MailStepInv(h, s, s');
  }

  lemma DropInv(h: Token -> Hash, s: State, mail: Mail)
    requires Inv(h, s)
    ensures Inv(h, s.(pending := s.pending - {mail}))
  {
    FewerMails(s, s.(pending := s.pending - {mail}));
    MailStepInv(h, s, s.(pending := s.pending - {mail}));
  }

  lemma StepInv(h: Token -> Hash, s: State, a: Action)
    requires Injective(h) && Inv(h, s)
    ensures Inv(h, Step(h, s, a))
  {
    hide Inv, Injective, Presentable, SaveStep, RequestStep, VerifyStep, TestReserveStep, SendStep, TestDeliverStep,
      NotifyStep;
    match a
    case Save(user, normal, completed, failed, fault) => SaveInv(h, s, user, normal, completed, failed, fault);
    case Request(user, configured, token, now, fault) =>
      if token !in s.hist.issued {
        RequestInv(h, s, user, configured, token, now, fault);
      }
    case SendVerification(mail) => SendInv(h, s, mail);
    case Verify(user, token, at, now, fault) =>
      if Presentable(s.hist, token) {
        VerifyInv(h, s, user, token, at, now, fault);
      }
    case TestReserve(user, configured, now, fault) => TestReserveInv(h, s, user, configured, now, fault);
    case TestDeliver(mail) => TestDeliverInv(h, s, mail);
    case Notify(user, event, configured) => NotifyInv(h, s, user, event, configured);
    case Drop(mail) => DropInv(h, s, mail);
  }

  lemma {:induction false} TraceInv(h: Token -> Hash, states: seq<State>, actions: seq<Action>, k: int)
    requires Injective(h) && Trace(h, states, actions) && 0 <= k <= |actions|
    ensures Inv(h, states[k])
  {
    hide Inv, Injective, Step;
    if k == 0 {
      StartInv(h);
    } else {
      TraceInv(h, states, actions, k - 1);
      assert states[k - 1 + 1] == Step(h, states[k - 1], actions[k - 1]);
      StepInv(h, states[k - 1], actions[k - 1]);
    }
  }

  lemma ReachableInv(h: Token -> Hash, s: State)
    requires Injective(h) && Reachable(h, s)
    ensures Inv(h, s)
  {
    var states, actions :| Trace(h, states, actions) && s == states[|actions|];
    TraceInv(h, states, actions, |actions|);
  }

  // --------------------------------------------------------------------------- theorems

  /**
   Verified means confirmed: a token for the present address, issued since the
   address last changed, came back in time, after a mail to that address had
   carried it.
   */
  lemma VerifiedMeansConfirmed(h: Token -> Hash, s: State, user: User)
    requires Injective(h) && Reachable(h, s) && user in s.rows && s.rows[user].verifiedAt.Some?
    ensures s.rows[user].email != EMPTY
    ensures exists c, i ::
              && c in s.hist.confirmations && VerifiedBy(s.hist, user, s.rows[user], c)
              && 0 <= i < c.mails <= |s.hist.sent| && s.hist.sent[i].mail.token == Some(c.token)
              && s.hist.sent[i].mail.email == s.rows[user].email
  {
    ReachableInv(h, s);
    assert RowInv(h, s.hist, user, s.rows[user]);
    var c :| c in s.hist.confirmations && VerifiedBy(s.hist, user, s.rows[user], c);
    var i :| 0 <= i < c.mails && s.hist.sent[..c.mails][i].mail.token == Some(c.token);
    assert s.hist.sent[i] in s.hist.sent;
    assert MailInv(s.hist, s.hist.sent[i].mail);
  }

  lemma TokenVerifiesOnce(h: Token -> Hash, s: State, i: int, k: int)
    requires Injective(h) && Reachable(h, s) && 0 <= i < k < |s.hist.confirmations|
    ensures s.hist.confirmations[i].token != s.hist.confirmations[k].token
  {
    ReachableInv(h, s);
  }

  /** Tests and notifications only go to an address that is verified while they are sent. */
  lemma MailToVerifiedOnly(h: Token -> Hash, s: State, i: int)
    requires Injective(h) && Reachable(h, s) && 0 <= i < |s.hist.sent| && s.hist.sent[i].mail.kind != VerifyMail
    ensures var e := s.hist.sent[i];
            e.row.Some? && e.row.value.verifiedAt.Some? && e.row.value.email == e.mail.email
  {
    ReachableInv(h, s);
    assert s.hist.sent[i] in s.hist.sent;
  }

  /** Every verification or test mail spends a committed reservation, and no two spend the same. */
  lemma SendsFollowReservations(h: Token -> Hash, s: State, i: int)
    requires Injective(h) && Reachable(h, s) && 0 <= i < |s.hist.sent|
    ensures var m := s.hist.sent[i].mail;
            && (m.kind == VerifyMail ==> m.at in Times(s.hist.requests, m.user))
            && (m.kind == TestMail ==> m.at in Times(s.hist.tests, m.user))
            && forall k :: 0 <= k < |s.hist.sent| && k != i ==> !SameReservation(m, s.hist.sent[k].mail)
  {
    ReachableInv(h, s);
    assert s.hist.sent[i] in s.hist.sent;
    assert MailInv(s.hist, s.hist.sent[i].mail);
    forall k | 0 <= k < |s.hist.sent| && k != i
      ensures !SameReservation(s.hist.sent[i].mail, s.hist.sent[k].mail)
    {
      assert !SameReservation(s.hist.sent[if i < k then i else k].mail, s.hist.sent[if i < k then k else i].mail);
    }
  }

  /** Reservations of one user are a minute apart, whatever is saved in between. */
  lemma CooldownHolds(h: Token -> Hash, s: State, user: User, times: seq<int>, i: int, k: int)
    requires Injective(h) && Reachable(h, s)
    requires times == Times(s.hist.requests, user) || times == Times(s.hist.tests, user)
    requires 0 <= i < k < |times|
    ensures times[i] + (k - i) * MINUTE <= times[k]
  {
    ReachableInv(h, s);
    assert Cooldown(Times(s.hist.requests, user), LastVerification(s.rows, user))
        && Cooldown(Times(s.hist.tests, user), LastTest(s.rows, user));
    SpacedUpTo(times, i, k);
  }

  /** So a window of length `span` holds at most one more than the minutes in it. */
  lemma CooldownWindow(h: Token -> Hash, s: State, user: User, times: seq<int>, i: int, k: int, span: nat)
    requires Injective(h) && Reachable(h, s)
    requires times == Times(s.hist.requests, user) || times == Times(s.hist.tests, user)
    requires 0 <= i <= k < |times| && times[k] - times[i] <= span
    ensures k - i + 1 <= span / MINUTE + 1
  {
    if i < k {
      CooldownHolds(h, s, user, times, i, k);
      assert (k - i) * MINUTE <= span;
    }
  }
}
