/**
 Runs of the email settings. Requests of all users interleave; a step is one
 statement, one transaction, or one mail handed over. The process may end
 between a committed reservation and its mail. The history records what was
 issued, mailed, presented and reserved; no step reads it, except that tokens
 are new and that nobody presents a token that was issued but never mailed.
 */
module NotificationHistory {
  import opened Notifications
  import opened Wrappers

  datatype Kind = VerifyMail | TestMail | NotifyMail

  /** `at` is the time of the reservation that the mail spends. */
  datatype Mail = Mail(kind: Kind, user: User, email: Text, token: Option<Token>, at: int)

  /** A mail with the settings row as it was when the mail was handed over. */
  datatype Sent = Sent(mail: Mail, row: Option<Row>)

  /** What a token stands for: `epoch` counts the changes of the address. */
  datatype Bound = Bound(user: User, email: Text, epoch: nat, at: int)

  /** `mails` is how many mails had been handed over by then. */
  datatype Confirmation = Confirmation(token: Token, user: User, now: int, mails: nat)

  datatype History = History(
    issued: map<Token, Bound>,
    sent: seq<Sent>,
    confirmations: seq<Confirmation>,
    epochs: map<User, nat>,
    requests: map<User, seq<int>>,
    tests: map<User, seq<int>>)

  datatype State = State(rows: Rows, pending: set<Mail>, hist: History)

  datatype Action =
    | Save(user: User, normal: Option<Text>, completed: bool, failed: bool, fault: Fault)
    | Request(user: User, configured: bool, token: Token, now: int, fault: Fault)
    | SendVerification(mail: Mail)
    | Verify(user: User, token: Token, at: int, now: int, fault: Fault)
    | TestReserve(user: User, configured: bool, now: int, fault: Fault)
    | TestDeliver(mail: Mail)
    | Notify(user: User, event: Event, configured: bool)
    | Drop(mail: Mail)

  const START := State(map[], {}, History(map[], [], [], map[], map[], map[]))

  function Epoch(hist: History, user: User): nat {
    if user in hist.epochs then hist.epochs[user] else 0
  }

  function Times(times: map<User, seq<int>>, user: User): seq<int> {
    if user in times then times[user] else []
  }

  predicate Mailed(sent: seq<Sent>, token: Token) {
    exists i :: 0 <= i < |sent| && sent[i].mail.token == Some(token)
  }

  /** Whoever knows an issued token has it from a mail. */
  predicate Presentable(hist: History, token: Token) {
    token in hist.issued ==> Mailed(hist.sent, token)
  }

  function RowOf(rows: Rows, user: User): Option<Row> {
    if user in rows then Some(rows[user]) else None
  }

  function Step(h: Token -> Hash, s: State, a: Action): State {
    match a
    case Save(user, normal, completed, failed, fault) => SaveStep(s, user, normal, completed, failed, fault)
    case Request(user, configured, token, now, fault) =>
      if token in s.hist.issued then s else RequestStep(h, s, user, configured, token, now, fault)
    case SendVerification(mail) => SendStep(s, mail)
    case Verify(user, token, at, now, fault) =>
      if Presentable(s.hist, token) then VerifyStep(h, s, user, token, at, now, fault) else s
    case TestReserve(user, configured, now, fault) => TestReserveStep(s, user, configured, now, fault)
    case TestDeliver(mail) => TestDeliverStep(s, mail)
    case Notify(user, event, configured) => NotifyStep(s, user, event, configured)
    case Drop(mail) => s.(pending := s.pending - {mail})
  }

  function SaveStep(s: State, user: User, normal: Option<Text>, completed: bool, failed: bool, fault: Fault): State {
    var rows := SaveOp(s.rows, user, normal, completed, failed, fault).0;
    if user in s.rows && rows[user].email != s.rows[user].email then
      s.(rows := rows, hist := s.hist.(epochs := s.hist.epochs[user := Epoch(s.hist, user) + 1]))
    else s.(rows := rows)
  }

  function RequestStep(h: Token -> Hash, s: State, user: User, configured: bool, token: Token, now: int, fault: Fault)
    : State
  {
    var (rows, reply) := RequestOp(s.rows, user, configured, h(token), now, fault);
    if fault == Lost || !RequestOp(s.rows, user, configured, h(token), now, NoFault).1.Granted? then s.(rows := rows)
    else
      var email := s.rows[user].email;
      var mail := Mail(VerifyMail, user, email, Some(token), now);
      State(rows, if reply.Granted? then s.pending + {mail} else s.pending,
            s.hist.(issued := s.hist.issued[token := Bound(user, email, Epoch(s.hist, user), now)],
                    requests := s.hist.requests[user := Times(s.hist.requests, user) + [now]]))
  }

  function SendStep(s: State, mail: Mail): State {
    if mail in s.pending && mail.kind == VerifyMail then
      s.(pending := s.pending - {mail},
         hist := s.hist.(sent := s.hist.sent + [Sent(mail, RowOf(s.rows, mail.user))]))
    else s
  }

  function VerifyStep(h: Token -> Hash, s: State, user: User, token: Token, at: int, now: int, fault: Fault): State {
    var rows := VerifyOp(s.rows, user, h(token), at, now, fault).0;
    if user == NOBODY || fault == Lost || !Confirms(s.rows, user, h(token), now) then s.(rows := rows)
    else
      var confirmation := Confirmation(token, user, now, |s.hist.sent|);
      s.(rows := rows, hist := s.hist.(confirmations := s.hist.confirmations + [confirmation]))
  }

  function TestReserveStep(s: State, user: User, configured: bool, now: int, fault: Fault): State {
    var (rows, reply) := TestReserveOp(s.rows, user, configured, now, fault);
    if fault == Lost || !TestReserveOp(s.rows, user, configured, now, NoFault).1.Granted? then s.(rows := rows)
    else
      var mail := Mail(TestMail, user, s.rows[user].email, None, now);
      State(rows, if reply.Granted? then s.pending + {mail} else s.pending,
            s.hist.(tests := s.hist.tests[user := Times(s.hist.tests, user) + [now]]))
  }

  function TestDeliverStep(s: State, mail: Mail): State {
    if mail in s.pending && mail.kind == TestMail then
      var hist := if TestDeliverOp(s.rows, mail.user, mail.email).Granted?
                  then s.hist.(sent := s.hist.sent + [Sent(mail, RowOf(s.rows, mail.user))]) else s.hist;
      s.(pending := s.pending - {mail}, hist := hist)
    else s
  }

  function NotifyStep(s: State, user: User, event: Event, configured: bool): State {
    var email := NotifyOp(s.rows, user, event);
    if email == None || !configured then s
    else
      var mail := Mail(NotifyMail, user, email.value, None, 0);
      s.(hist := s.hist.(sent := s.hist.sent + [Sent(mail, RowOf(s.rows, user))]))
  }

  ghost predicate Injective(h: Token -> Hash) {
    forall t, u :: h(t) == h(u) ==> t == u
  }

  /** A run: every state follows from the one before by the action between them. */
  ghost predicate Trace(h: Token -> Hash, states: seq<State>, actions: seq<Action>) {
    && |states| == |actions| + 1 && states[0] == START
    && forall i {:trigger actions[i]} :: 0 <= i < |actions| ==> states[i + 1] == Step(h, states[i], actions[i])
  }

  ghost predicate Reachable(h: Token -> Hash, s: State) {
    exists states, actions :: Trace(h, states, actions) && s == states[|actions|]
  }

  // ------------------------------------------------------------------------ invariant

  predicate Confirmed(hist: History, token: Token) {
    exists i :: 0 <= i < |hist.confirmations| && hist.confirmations[i].token == token
  }

  /** The hash in a row belongs to a token for this address that nobody has used. */
  predicate HashInv(h: Token -> Hash, hist: History, user: User, r: Row, token: Token) {
    && token in hist.issued && r.hash == Some(h(token)) && r.email != EMPTY
    && hist.issued[token].user == user && hist.issued[token].email == r.email
    && hist.issued[token].epoch == Epoch(hist, user)
    && r.expires == Some(hist.issued[token].at + 30 * MINUTE)
    && !Confirmed(hist, token)
  }

  /** `c` confirmed, in time, a token for this address since its last change. */
  predicate VerifiedBy(hist: History, user: User, r: Row, c: Confirmation) {
    && c.user == user && c.token in hist.issued
    && hist.issued[c.token].user == user && hist.issued[c.token].email == r.email != EMPTY
    && hist.issued[c.token].epoch == Epoch(hist, user)
    && c.now < hist.issued[c.token].at + 30 * MINUTE
  }

  ghost predicate RowInv(h: Token -> Hash, hist: History, user: User, r: Row) {
    && (r.hash.Some? ==> exists token :: HashInv(h, hist, user, r, token))
    && (r.verifiedAt.Some? ==> exists c :: c in hist.confirmations && VerifiedBy(hist, user, r, c))
  }

  ghost predicate RowsInv(h: Token -> Hash, s: State) {
    forall u :: u in s.rows ==> RowInv(h, s.hist, u, s.rows[u])
  }

  /** Confirmed tokens had been mailed, and no token confirms twice. */
  predicate ConfirmationsInv(hist: History) {
    && (forall c :: c in hist.confirmations ==>
          c.token in hist.issued && c.mails <= |hist.sent| && Mailed(hist.sent[..c.mails], c.token))
    && forall i, k :: 0 <= i < k < |hist.confirmations| ==> hist.confirmations[i].token != hist.confirmations[k].token
  }

  predicate Spaced(times: seq<int>) {
    forall i :: 0 < i < |times| ==> times[i - 1] + MINUTE <= times[i]
  }

  predicate LastOf(times: seq<int>, last: Option<int>) {
    last == if times == [] then None else Some(times[|times| - 1])
  }

  function LastVerification(rows: Rows, u: User): Option<int> {
    if u in rows then rows[u].lastVerification else None
  }

  function LastTest(rows: Rows, u: User): Option<int> {
    if u in rows then rows[u].lastTest else None
  }

  /** The list of reservations is spaced, and the row remembers the last one. */
  predicate Cooldown(times: seq<int>, last: Option<int>) {
    Spaced(times) && LastOf(times, last)
  }

  ghost predicate CooldownInv(s: State) {
    forall u ::
      && Cooldown(Times(s.hist.requests, u), LastVerification(s.rows, u))
      && Cooldown(Times(s.hist.tests, u), LastTest(s.rows, u))
  }

  /** A mail spends a reservation, and the token it carries was issued for its address. */
  predicate MailInv(hist: History, m: Mail) {
    match m.kind
    case VerifyMail =>
      && m.token.Some? && m.token.value in hist.issued && m.at in Times(hist.requests, m.user)
      && hist.issued[m.token.value].user == m.user && hist.issued[m.token.value].email == m.email
      && hist.issued[m.token.value].at == m.at
    case TestMail => m.token == None && m.at in Times(hist.tests, m.user)
    case NotifyMail => m.token == None
  }

  /** Two mails for one reservation. */
  predicate SameReservation(m: Mail, n: Mail) {
    m.kind == n.kind != NotifyMail && m.user == n.user && m.at == n.at
  }

  ghost predicate MailsInv(s: State) {
    && (forall m :: m in s.pending ==> m.kind != NotifyMail && MailInv(s.hist, m))
    && (forall e :: e in s.hist.sent ==> MailInv(s.hist, e.mail))
    && (forall m, n :: m in s.pending && n in s.pending && SameReservation(m, n) ==> m == n)
    && (forall m, e :: m in s.pending && e in s.hist.sent ==> !SameReservation(m, e.mail))
    && forall i, k :: 0 <= i < k < |s.hist.sent| ==> !SameReservation(s.hist.sent[i].mail, s.hist.sent[k].mail)
  }

  /** Everything but verification mail goes to an address that is verified at that moment. */
  predicate TargetsInv(hist: History) {
    forall e :: e in hist.sent && e.mail.kind != VerifyMail ==>
      e.row.Some? && e.row.value.verifiedAt.Some? && e.row.value.email == e.mail.email
  }

  ghost predicate Inv(h: Token -> Hash, s: State) {
    RowsInv(h, s) && ConfirmationsInv(s.hist) && CooldownInv(s) && MailsInv(s) && TargetsInv(s.hist)
  }

  lemma StartInv(h: Token -> Hash)
    ensures Inv(h, START)
  {
  }
}
