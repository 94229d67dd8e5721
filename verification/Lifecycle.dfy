/**
 * What every mailbox-service call does, as a journal of writes.
 *
 * A call reads the state, may lose any of its port calls to a fault, and
 * performs writes in a fixed order. Its specification is the journal of those
 * writes, so the state in the middle of a call is the replay of a prefix.
 */
module Lifecycle {
  import opened Calendar
  import opened Domain

  /** Fixed settings: whether the payment gateway is Open Collective, and the gift coupon. */
  datatype Config = Config(
    openCollective: bool,
    couponCode: string,
    discountId: string,
    publicBaseUrl: string)

  datatype State = State(
    cfg: Config,
    rows: seq<Mailbox>,
    enabled: map<string, bool>,                // mail_users: login to enabled
    accounts: map<string, Option<Time>>,       // account to subscription expiry
    freeMode: bool,
    lastClaimPoll: Time)

  const GIFT_MONTHS: int := 3
  const ACTIVATION_TTL: int := 24 * HOUR
  const CLAIM_POLL_COOLDOWN: int := 30 * SECOND

  // ---------- faults ----------

  datatype Port =
    | Lookup | Relookup | Listing | Feed | AccountRead | AccountWrite | BulkWrite
    | RowWrite | Provision | Gateway | Token | Mail

  /** One port call inside a service call; loops number their calls by iteration. */
  datatype Call = Call(port: Port, index: nat)

  type Faults = set<Call>

  // ---------- writes ----------

  /** The reason for a full-row Update. */
  datatype Why =
    | Paid(charge: Option<Charge>, base: Time, months: int)   // markMailboxPaid
    | Renewed(next: Charge, base: Time)                       // a later charge of the poll
    | Priced(now: Time)                                       // a claim records a checkout
    | Tokened(now: Time)                                      // a new activation token
    | Activated(now: Time)                                    // an activation link is used
    | Lapsed                                                  // expireMailbox
    | Synced                                                  // account-bound row follows its account
    | Admin                                                   // RenewMailbox, ReprovisionMailbox

  datatype Effect =
    | Insert(row: Mailbox, byAdmin: bool)
    | Save(k: nat, row: Mailbox, why: Why)
    | Extend(account: string, until: Time)
    | Enable(login: string)
    | Disable(login: string)
    | ClearExpiries
    | ClearSubscriptions
    | Polled(at: Time)
    | SwitchMode(on: bool)

  function ClearedExpiries(rows: seq<Mailbox>): (r: seq<Mailbox>)
    ensures |r| == |rows|
  {
    seq(|rows|, i requires 0 <= i < |rows| => if rows[i].status == Active then rows[i].(expiresAt := None) else rows[i])
  }

  function Apply(st: State, e: Effect): State {
    match e
    case Insert(row, _) => st.(rows := st.rows + [row])
    case Save(k, row, _) => if k < |st.rows| then st.(rows := st.rows[k := row]) else st
    case Extend(account, until) =>
      if account in st.accounts then st.(accounts := st.accounts[account := Some(until)]) else st
    case Enable(login) => st.(enabled := st.enabled[login := true])
    case Disable(login) => if login in st.enabled then st.(enabled := st.enabled[login := false]) else st
    case ClearExpiries => st.(rows := ClearedExpiries(st.rows))
    case ClearSubscriptions => st.(accounts := map a | a in st.accounts :: None)
    case Polled(at) => st.(lastClaimPoll := at)
    case SwitchMode(on) => st.(freeMode := on)
  }

  function Replay(st: State, effects: seq<Effect>): State
    decreases |effects|
  {
    if effects == [] then st
    else Apply(Replay(st, effects[..|effects| - 1]), effects[|effects| - 1])
  }

  lemma {:induction false} ReplayConcat(st: State, a: seq<Effect>, b: seq<Effect>)
    ensures Replay(st, a + b) == Replay(Replay(st, a), b)
    decreases |b|
  {
    if b == [] {
      assert a + b == a;
    } else {
      var n := |b| - 1;
      assert (a + b)[..|a + b| - 1] == a + b[..n];
      ReplayConcat(st, a, b[..n]);
    }
  }

  lemma ReplayNothing(st: State)
    ensures Replay(st, []) == st
  {
  }

  lemma ReplayOne(st: State, e: Effect)
    ensures Replay(st, [e]) == Apply(st, e)
  {
    assert [e][..0] == [];
  }

  lemma ReplayTwo(st: State, e: Effect, f: Effect)
    ensures Replay(st, [e, f]) == Apply(Apply(st, e), f)
  {
    assert [e, f][..1] == [e];
    ReplayOne(st, e);
  }

  /** What a call did: its writes, whether it returned no error, and the count it returned. */
  datatype Trace = Trace(effects: seq<Effect>, ok: bool, count: nat)

  function Failed(effects: seq<Effect>): Trace {
    Trace(effects, false, 0)
  }

  function Then(first: seq<Effect>, rest: Trace): Trace {
    Trace(first + rest.effects, rest.ok, rest.count)
  }

  // ---------- single writes ----------

  /** repo.Update: the database refuses a row that breaks a unique index. */
  function Update(st: State, k: nat, row: Mailbox, why: Why, i: nat, faults: Faults): Trace {
    if Call(RowWrite, i) in faults || k >= |st.rows| || !UniqueRows(st.rows[k := row]) then Failed([])
    else Trace([Save(k, row, why)], true, 1)
  }

  /** repo.Create, by a user or by an administrator. */
  function Create(st: State, row: Mailbox, byAdmin: bool, i: nat, faults: Faults): Trace {
    if Call(RowWrite, i) in faults || !UniqueRows(st.rows + [row]) then Failed([])
    else Trace([Insert(row, byAdmin)], true, 1)
  }

  function Ensure(login: string, i: nat, faults: Faults): Trace {
    if Call(Provision, i) in faults then Failed([]) else Trace([Enable(login)], true, 1)
  }

  /** Runs `next` only when `first` returned no error; the count is that of the last part run. */
  function AndThen(first: Trace, next: Trace): Trace {
    if first.ok then Then(first.effects, next) else first
  }

  // ---------- payment ----------

  /** The row a credited charge leaves behind, whatever its status was. */
  function Credited(m: Mailbox, paidAt: Time, months: int): Mailbox {
    m.(status := Active,
       paidAt := Some(paidAt),
       expiresAt := Some(AddMonths(Later(paidAt, m.expiresAt), months)))
  }

  function WithCursor(m: Mailbox, charge: Option<Charge>): Mailbox {
    if charge.Some? then m.(lastChargeId := charge.value.chargeId, lastChargedAt := Some(charge.value.at)) else m
  }

  function MonthsGranted(m: Mailbox): int {
    if m.grantedMonths <= 0 then 1 else m.grantedMonths
  }

  /** markMailboxPaid. */
  function MarkPaid(st: State, session: string, charge: Option<Charge>, now: Time, i: nat, faults: Faults): Trace {
    if st.freeMode then Trace([], true, 0)
    else if Call(Relookup, i) in faults then Failed([])
    else
      match Find(st.rows, BySession(session))
      case None => Failed([])
      case Some(k) =>
        var m := st.rows[k];
        var paidAt := if charge.Some? then charge.value.at else now;
        if m.status == Active then Ensure(m.login, i, faults)
        else if m.KeyBound() then
          var months := MonthsGranted(m);
          AndThen(Update(st, k, Credited(WithCursor(m, charge), paidAt, months),
                         Paid(charge, Later(paidAt, m.expiresAt), months), i, faults),
                  Ensure(m.login, i, faults))
        else if Call(AccountRead, i) in faults || m.accountId !in st.accounts then Failed([])
        else
          var base := Later(paidAt, st.accounts[m.accountId]);
          var next := AddMonths(base, 1);
          if Call(AccountWrite, i) in faults then Failed([])
          else
            var row := WithCursor(m, charge).(status := Active, paidAt := Some(paidAt), expiresAt := Some(next));
            Then([Extend(m.accountId, next)],
                 AndThen(Update(st, k, row, Paid(charge, base, 1), i, faults), Ensure(m.login, i, faults)))
  }

  /** The poll passes over a charge that its row does not take, or took before. */
  predicate Settled(m: Mailbox, c: Charge) {
    || !HasTagPrefix(m.session)
    || c.chargeId == ""
    || (m.lastChargedAt.Some? && c.at <= m.lastChargedAt.value)
  }

  /** One charge of ReconcileOpenCollectivePayments; the count is 1 when it was applied. */
  function CreditCharge(st: State, c: Charge, i: nat, faults: Faults): Trace {
    if Call(Lookup, i) in faults then Failed([])
    else
      match Find(st.rows, BySession(c.tag))
      case None => Trace([], true, 0)
      case Some(k) =>
        CreditCopy(st, k, st.rows[k], c, i, faults)
  }

  /** The part of it that follows the lookup: `m` is the copy of row k that was read. */
  function CreditCopy(st: State, k: nat, m: Mailbox, c: Charge, i: nat, faults: Faults): Trace {
    if Settled(m, c) then Trace([], true, 0)
    else if m.status == PendingPayment then MarkPaid(st, c.tag, Some(c), c.at, i, faults).(count := 1)
    else Renew(st, k, m, c, i, faults)
  }

  function Renew(st: State, k: nat, m: Mailbox, c: Charge, i: nat, faults: Faults): Trace {
    var base := Later(c.at, m.expiresAt);
    if !m.KeyBound() && Call(AccountWrite, i) in faults then Failed([])
    else
      Then(if m.KeyBound() then [] else [Extend(m.accountId, AddMonths(base, 1))],
           AndThen(Update(st, k, Credited(WithCursor(m, Some(c)), c.at, 1), Renewed(c, base), i, faults),
                   Ensure(m.login, i, faults)))
  }

  lemma RenewCounts(st: State, k: nat, m: Mailbox, c: Charge, i: nat, faults: Faults)
    ensures Renew(st, k, m, c, i, faults).ok ==> Renew(st, k, m, c, i, faults).count == 1
  {
  }

  /** The first n charges of a poll; a failed charge ends it. */
  function PollPrefix(st: State, charges: seq<Charge>, n: nat, faults: Faults): Trace
    requires n <= |charges|
  {
    if n == 0 then Trace([], true, 0)
    else
      var before := PollPrefix(st, charges, n - 1, faults);
      if !before.ok then before
      else
        var step := CreditCharge(Replay(st, before.effects), charges[n - 1], n - 1, faults);
        Trace(before.effects + step.effects, step.ok, before.count + (if step.ok then step.count else 0))
  }

  /** A charge that failed ends its poll. */
  lemma {:induction false} PollStuck(st: State, charges: seq<Charge>, n: nat, m: nat, faults: Faults)
    requires n <= m <= |charges| && !PollPrefix(st, charges, n, faults).ok
    ensures PollPrefix(st, charges, m, faults) == PollPrefix(st, charges, n, faults)
  {
    if n < m {
      PollStuck(st, charges, n, m - 1, faults);
    }
  }

  /** ReconcileOpenCollectivePayments; `feed` is None when ListPaidCharges fails. */
  function Poll(st: State, feed: Option<seq<Charge>>, faults: Faults): Trace {
    if st.freeMode then Trace([], true, 0)
    else if feed.None? then Failed([])
    else PollPrefix(st, feed.value, |feed.value|, faults)
  }

  /** The payment gateway's answer about a session. */
  datatype SessionReply = Unknown | GatewayError | Open | Confirmed | Succeeded | SessionExpired | SessionFailed

  /** GetPaymentSession; a gateway other than Open Collective answers from `replies`. */
  function SessionStatus(cfg: Config, session: string, replies: map<string, SessionReply>): SessionReply {
    if cfg.openCollective then (if HasTagPrefix(session) then Open else Unknown)
    else if session in replies then replies[session]
    else GatewayError
  }

  /** ReconcilePendingPayments, for the first n rows that were listed as pending. */
  function PendingPrefix(st: State, listed: seq<nat>, n: nat, now: Time, replies: map<string, SessionReply>,
                         faults: Faults): Trace
    requires n <= |listed|
    requires forall i :: 0 <= i < |listed| ==> listed[i] < |st.rows|
  {
    if n == 0 then Trace([], true, 0)
    else
      var before := PendingPrefix(st, listed, n - 1, now, replies, faults);
      var session := st.rows[listed[n - 1]].session;
      var reply := SessionStatus(st.cfg, session, replies);
      if session == "" || Call(Gateway, n - 1) in faults || !(reply.Confirmed? || reply.Succeeded?) then before
      else
        var step := MarkPaid(Replay(st, before.effects), session, None, now, n - 1, faults);
        Trace(before.effects + step.effects, true, before.count + (if step.ok then 1 else 0))
  }

  /**
   * What the reconciler reports of one row: what it learnt of the session, and
   * what it did. An error text is not modelled.
   */
  datatype Learnt = NoSession | CheckFailed | Checked(reply: SessionReply)
  datatype Deed = Skipped | PaidFor | PayingFailed | NoAction
  datatype ReconcileResult = ReconcileResult(id: string, session: string, learnt: Learnt, deed: Deed)

  function ResultFor(m: Mailbox, gatewayFailed: bool, reply: SessionReply, paid: bool): ReconcileResult {
    if m.session == "" then ReconcileResult(m.id, "", NoSession, Skipped)
    else if gatewayFailed || reply.Unknown? || reply.GatewayError? then
      ReconcileResult(m.id, m.session, CheckFailed, Skipped)
    else
      ReconcileResult(m.id, m.session, Checked(reply),
                      if !reply.Confirmed? && !reply.Succeeded? then NoAction
                      else if paid then PaidFor
                      else PayingFailed)
  }

  /** The results of the first n listed rows. */
  function PendingResults(st: State, listed: seq<nat>, n: nat, now: Time, replies: map<string, SessionReply>,
                          faults: Faults)
      : (results: seq<ReconcileResult>)
    requires n <= |listed|
    requires forall i :: 0 <= i < |listed| ==> listed[i] < |st.rows|
    ensures |results| == n
  {
    if n == 0 then []
    else
      var m := st.rows[listed[n - 1]];
      var mid := Replay(st, PendingPrefix(st, listed, n - 1, now, replies, faults).effects);
      PendingResults(st, listed, n - 1, now, replies, faults) +
        [ResultFor(m, Call(Gateway, n - 1) in faults, SessionStatus(st.cfg, m.session, replies),
                   MarkPaid(mid, m.session, None, now, n - 1, faults).ok)]
  }

  /** What ReconcilePendingPayments returns, unless the listing fails. */
  function PendingReport(st: State, now: Time, replies: map<string, SessionReply>, faults: Faults)
      : seq<ReconcileResult>
  {
    if st.freeMode then []
    else
      var listed := Select(st.rows, PendingRows);
      PendingResults(st, listed, |listed|, now, replies, faults)
  }

  function ReconcilePending(st: State, now: Time, replies: map<string, SessionReply>, faults: Faults): Trace {
    if st.freeMode then Trace([], true, 0)
    else if Call(Listing, 0) in faults then Failed([])
    else
      var listed := Select(st.rows, PendingRows);
      PendingPrefix(st, listed, |listed|, now, replies, faults)
  }

  // ---------- expiry ----------

  /** expireMailbox: mail access goes first, so a failed disable leaves the row to a later sweep. */
  function Expire(st: State, k: nat, m: Mailbox, why: Why, i: nat, faults: Faults): Trace {
    if Call(Provision, i) in faults then Failed([])
    else Then([Disable(m.login)], Update(st, k, m.(status := Expired), why, i, faults))
  }

  function SweepPrefix(st: State, due: seq<nat>, n: nat, faults: Faults): Trace
    requires n <= |due|
    requires forall i :: 0 <= i < |due| ==> due[i] < |st.rows|
  {
    if n == 0 then Trace([], true, 0)
    else
      var before := SweepPrefix(st, due, n - 1, faults);
      if !before.ok then before
      else
        var k := due[n - 1];
        var step := Expire(Replay(st, before.effects), k, st.rows[k], Lapsed, n - 1, faults);
        Trace(before.effects + step.effects, step.ok, before.count + (if step.ok then 1 else 0))
  }

  /** ExpireMailboxes. */
  function Sweep(st: State, now: Time, faults: Faults): Trace {
    if st.freeMode then Trace([], true, 0)
    else if Call(Listing, 0) in faults then Failed([])
    else
      var due := Select(st.rows, ActiveDue(now));
      SweepPrefix(st, due, |due|, faults)
  }

  function DisablePrefix(st: State, listed: seq<nat>, n: nat, faults: Faults): Trace
    requires n <= |listed|
    requires forall i :: 0 <= i < |listed| ==> listed[i] < |st.rows|
  {
    if n == 0 then Trace([], true, 0)
    else
      var before := DisablePrefix(st, listed, n - 1, faults);
      if !before.ok then before
      else if Call(Provision, n - 1) in faults then Trace(before.effects, false, before.count)
      else Trace(before.effects + [Disable(st.rows[listed[n - 1]].login)], true, before.count + 1)
  }

  /** DisableExpiredMailboxes. */
  function DisableExpired(st: State, faults: Faults): Trace {
    if st.freeMode then Trace([], true, 0)
    else if Call(Listing, 0) in faults then Failed([])
    else
      var listed := Select(st.rows, ExpiredRows);
      DisablePrefix(st, listed, |listed|, faults)
  }

  // ---------- activation links ----------

  /** newActivationToken. */
  function WithToken(m: Mailbox, hash: string, now: Time): Mailbox {
    m.(tokenHash := hash, tokenExpiresAt := Some(now + ACTIVATION_TTL), status := PendingPayment,
       session := "", paymentUrl := "")
  }

  /** The mail with the link goes out, or not: it leaves no write. */
  function SendLink(st: State, i: nat, faults: Faults): Trace {
    if st.cfg.publicBaseUrl == "" || Call(Mail, i) in faults then Failed([]) else Trace([], true, 1)
  }

  /** issueActivationLink: the token is stored before the mail goes out. */
  function IssueLink(st: State, k: nat, m: Mailbox, hash: string, now: Time, faults: Faults): Trace {
    if Call(Token, 0) in faults then Failed([])
    else AndThen(Update(st, k, WithToken(m, hash, now), Tokened(now), 0, faults), SendLink(st, 0, faults))
  }

  datatype ActivationResult = ActivationResult(mailbox: Mailbox, alreadyActive: bool)

  /** ActivateMailboxByActivationToken. */
  function Activate(st: State, hash: string, now: Time, faults: Faults): Trace {
    if hash == "" || Call(Lookup, 0) in faults then Failed([])
    else
      match Find(st.rows, ByTokenHash(hash))
      case None => Failed([])
      case Some(k) =>
        var m := st.rows[k];
        if m.status == Active then Ensure(m.login, 0, faults)
        else if m.status != PendingPayment || !After(m.tokenExpiresAt, now) then Failed([])
        else
          var row := m.(status := Active, paidAt := Some(now), expiresAt := None);
          AndThen(Update(st, k, row, Activated(now), 0, faults), Ensure(m.login, 0, faults))
  }

  /** SwitchoverToFreeMode skips a row whose activation token is still valid. */
  predicate HasValidToken(m: Mailbox, now: Time) {
    m.tokenHash != "" && After(m.tokenExpiresAt, now)
  }

  /** The first n pending rows of a switchover: mail first, so a failed mail leaves the row token-less. */
  function SwitchPrefix(st: State, listed: seq<nat>, n: nat, tokens: seq<string>, now: Time, faults: Faults): Trace
    requires n <= |listed| <= |tokens|
    requires forall i :: 0 <= i < |listed| ==> listed[i] < |st.rows|
  {
    if n == 0 then Trace([], true, 0)
    else
      var before := SwitchPrefix(st, listed, n - 1, tokens, now, faults);
      var k := listed[n - 1];
      var m := st.rows[k];
      if !before.ok || HasValidToken(m, now) then before
      else if Call(Token, n - 1) in faults || st.cfg.publicBaseUrl == "" || Call(Mail, n - 1) in faults then
        Trace(before.effects, false, before.count)
      else
        var step := Update(Replay(st, before.effects), k, WithToken(m, tokens[n - 1], now), Tokened(now), n - 1,
                           faults);
        Trace(before.effects + step.effects, step.ok, before.count + (if step.ok then 1 else 0))
  }

  /** SwitchoverToFreeMode; the count is PendingConverted. `tokens` are the hashes of the new tokens. */
  function Switchover(st: State, tokens: seq<string>, now: Time, faults: Faults): Trace
    requires |tokens| >= |st.rows|
  {
    if !st.freeMode || Call(BulkWrite, 0) in faults then Failed([])
    else if Call(BulkWrite, 1) in faults then Failed([ClearExpiries])
    else
      var cleared := [ClearExpiries, ClearSubscriptions];
      if Call(Listing, 0) in faults then Failed(cleared)
      else
        var st1 := Replay(st, cleared);
        var listed := Select(st1.rows, PendingRows);
        SwitchoverSizes(st, cleared);
        Then(cleared, SwitchPrefix(st1, listed, |listed|, tokens, now, faults))
  }

  function ActiveCount(rows: seq<Mailbox>): nat
    decreases |rows|
  {
    if rows == [] then 0
    else ActiveCount(rows[..|rows| - 1]) + (if rows[|rows| - 1].status == Active then 1 else 0)
  }

  /** The accounts with a subscription expiry. */
  function TimedAccounts(accounts: map<string, Option<Time>>): set<string> {
    set a | a in accounts && accounts[a].Some?
  }

  datatype SwitchoverResult = SwitchoverResult(activeCleared: nat, accountsCleared: nat, pendingConverted: nat)

  /** What a switchover reports, failed or not. */
  function SwitchoverReport(st: State, tokens: seq<string>, now: Time, faults: Faults): SwitchoverResult
    requires |tokens| >= |st.rows|
  {
    if !st.freeMode || Call(BulkWrite, 0) in faults then SwitchoverResult(0, 0, 0)
    else if Call(BulkWrite, 1) in faults then SwitchoverResult(ActiveCount(st.rows), 0, 0)
    else SwitchoverResult(ActiveCount(st.rows), |TimedAccounts(st.accounts)|, Switchover(st, tokens, now, faults).count)
  }

  lemma SwitchoverSizes(st: State, cleared: seq<Effect>)
    requires cleared == [ClearExpiries, ClearSubscriptions]
    ensures |Replay(st, cleared).rows| == |st.rows|
    ensures |Select(Replay(st, cleared).rows, PendingRows)| <= |st.rows|
  {
    ReplayTwo(st, ClearExpiries, ClearSubscriptions);
    SelectSize(Replay(st, cleared).rows, PendingRows);
  }

  lemma {:induction false} SelectSize(rows: seq<Mailbox>, filter: Filter)
    ensures |Select(rows, filter)| <= |rows|
  {
    if rows != [] {
      SelectSize(rows[..|rows| - 1], filter);
    }
  }

  // ---------- claims ----------

  /** What a claim brings along, and what its ports answer. */
  datatype Claim = Claim(
    email: string,
    fingerprint: string,
    coupon: string,
    now: Time,
    feed: Option<seq<Charge>>,             // the charges of a claim-triggered poll
    pollFaults: Faults,
    replies: map<string, SessionReply>,    // the gateway's sessions, unless it is Open Collective
    newSession: string,                    // the session it creates, unless it is Open Collective
    newUrl: string,
    tokenHash: string,                     // the activation token of a free-mode claim
    id: string, login: string, accessToken: string,   // of a new mailbox
    faults: Faults)

  /** validateCoupon: the months granted, or None for a coupon that is not accepted. */
  function ValidateCoupon(cfg: Config, coupon: string): Option<int> {
    if coupon == "" then Some(0)
    else if cfg.couponCode == "" || cfg.discountId == "" || coupon != cfg.couponCode then None
    else Some(GIFT_MONTHS)
  }

  /** The session CreatePaymentLink returns. */
  function LinkSession(cfg: Config, id: string, newSession: string): string {
    if cfg.openCollective then CheckoutTag(id) else newSession
  }

  /** reconcileOnClaim: ok when it applied a charge. At most one claim per cooldown polls. */
  function ClaimPoll(st: State, c: Claim): Trace {
    if !st.cfg.openCollective || c.now - st.lastClaimPoll < CLAIM_POLL_COOLDOWN then Failed([])
    else
      var poll := Poll(Apply(st, Polled(c.now)), c.feed, c.pollFaults);
      Trace([Polled(c.now)] + poll.effects, poll.ok && poll.count > 0, poll.count)
  }

  /** ClaimMailbox. */
  function ClaimMailbox(st: State, c: Claim): Trace {
    var coupon := if st.freeMode then "" else c.coupon;
    var granted := ValidateCoupon(st.cfg, coupon);
    if '@' !in c.email || c.fingerprint == "" || granted.None? || Call(Lookup, 0) in c.faults then Failed([])
    else
      match Find(st.rows, ByFingerprint(c.fingerprint))
      case None => ClaimNew(st, c, coupon, granted.value)
      case Some(k) => ClaimExisting(st, c, k, coupon, granted.value)
  }

  function ClaimExisting(st: State, c: Claim, k: nat, coupon: string, granted: int): Trace
    requires k < |st.rows|
  {
    var existing := st.rows[k];
    if Usable(existing, c.now) then Trace([], true, 0)
    else if st.freeMode then IssueLink(st, k, existing, c.tokenHash, c.now, c.faults)
    else
      var poll := if existing.status == PendingPayment then ClaimPoll(st, c) else Failed([]);
      var st1 := Replay(st, poll.effects);
      var reread := Find(st1.rows, ById(existing.id));
      if poll.ok && Call(Lookup, 1) !in c.faults && reread.Some? && Usable(st1.rows[reread.value], c.now) then
        Trace(poll.effects, true, 0)
      else
        Then(poll.effects, Reprice(st1, c, k, existing, coupon, granted))
  }

  /** The paid rest of a claim on an unusable mailbox; `existing` is the copy read at the start. */
  function Reprice(st: State, c: Claim, k: nat, existing: Mailbox, coupon: string, granted: int): Trace {
    if coupon != "" && existing.couponUsed then Failed([])
    else if existing.status == PendingPayment && existing.session != "" && existing.paymentUrl != "" then
      var reply := SessionStatus(st.cfg, existing.session, c.replies);
      if Call(Gateway, 0) in c.faults || reply.GatewayError? then Failed([])
      else if reply.Unknown? || reply.SessionExpired? || reply.SessionFailed? then
        NewCheckout(st, c, k, existing, coupon, granted)
      else Trace([], true, 0)
    else NewCheckout(st, c, k, existing, coupon, granted)
  }

  function NewCheckout(st: State, c: Claim, k: nat, existing: Mailbox, coupon: string, granted: int): Trace {
    if Call(Gateway, 1) in c.faults then Failed([])
    else
      AndThen(Update(st, k, PricedRow(st.cfg, c, existing, coupon, granted), Priced(c.now), 0, c.faults),
              if Call(Mail, 0) in c.faults then Failed([]) else Trace([], true, 1))
  }

  /** The copy with a new checkout. */
  function PricedRow(cfg: Config, c: Claim, existing: Mailbox, coupon: string, granted: int): Mailbox {
    existing.(
      session := LinkSession(cfg, existing.id, c.newSession), paymentUrl := c.newUrl,
      status := PendingPayment, grantedMonths := granted, couponUsed := existing.couponUsed || coupon != "")
  }

  /** The copy names a checkout that the gateway lets be used again: paymentSessionReusable. */
  predicate KeepsCheckout(cfg: Config, c: Claim, existing: Mailbox) {
    && existing.status == PendingPayment && existing.session != "" && existing.paymentUrl != ""
    && var reply := SessionStatus(cfg, existing.session, c.replies);
       !reply.GatewayError? && !reply.Unknown? && !reply.SessionExpired? && !reply.SessionFailed?
  }

  /** The mailbox a successful claim returns. */
  function Returned(st: State, c: Claim): Mailbox {
    var coupon := if st.freeMode then "" else c.coupon;
    var granted := ValidateCoupon(st.cfg, coupon).GetOr(0);
    match Find(st.rows, ByFingerprint(c.fingerprint))
    case None => PendingRow(st, c, NewMailbox(c, coupon, granted))
    case Some(k) => ReturnedExisting(st, c, k, coupon, granted)
  }

  function ReturnedExisting(st: State, c: Claim, k: nat, coupon: string, granted: int): Mailbox
    requires k < |st.rows|
  {
    var existing := st.rows[k];
    if Usable(existing, c.now) then existing
    else if st.freeMode then WithToken(existing, c.tokenHash, c.now)
    else
      var poll := if existing.status == PendingPayment then ClaimPoll(st, c) else Failed([]);
      var rows := Replay(st, poll.effects).rows;
      var reread := Find(rows, ById(existing.id));
      if poll.ok && Call(Lookup, 1) !in c.faults && reread.Some? && Usable(rows[reread.value], c.now) then
        rows[reread.value]
      else if KeepsCheckout(st.cfg, c, existing) then existing
      else PricedRow(st.cfg, c, existing, coupon, granted)
  }

  function NewMailbox(c: Claim, coupon: string, granted: int): Mailbox {
    Mailbox(c.id, "", c.fingerprint, c.login, c.accessToken, "", "", "", None, "", None,
            PendingPayment, granted, coupon != "", None, None)
  }

  function ClaimNew(st: State, c: Claim, coupon: string, granted: int): Trace {
    if Call(Token, 1) in c.faults || Call(Token, 2) in c.faults then Failed([])
    else CreatePending(st, c, NewMailbox(c, coupon, granted))
  }

  /** A new row with its activation token, or with its checkout. */
  function PendingRow(st: State, c: Claim, m: Mailbox): Mailbox {
    if st.freeMode then WithToken(m, c.tokenHash, c.now)
    else m.(session := LinkSession(st.cfg, m.id, c.newSession), paymentUrl := c.newUrl)
  }

  /** A new pending row: with an activation link in free mode, with a checkout in paid mode. */
  function CreatePending(st: State, c: Claim, m: Mailbox): Trace {
    if (if st.freeMode then Call(Token, 0) else Call(Gateway, 1)) in c.faults then Failed([])
    else
      AndThen(Create(st, PendingRow(st, c, m), false, 0, c.faults),
              if st.freeMode then SendLink(st, 0, c.faults)
              else if Call(Mail, 0) in c.faults then Failed([]) else Trace([], true, 1))
  }

  /** CreateMailbox for an account; uses the same answers as a claim. */
  function CreateMailbox(st: State, account: string, c: Claim): Trace {
    var subscription := if account in st.accounts then st.accounts[account] else None;
    var subscribed := !st.freeMode && After(subscription, c.now);
    var m := NewMailbox(c, "", 0).(accountId := account, fingerprint := "");
    var pending := if subscribed then None else Find(st.rows, PendingOf(account));
    if account == "" || (!subscribed && Call(Lookup, 0) in c.faults) then Failed([])
    else if pending.Some? then
      if st.freeMode then IssueLink(st, pending.value, st.rows[pending.value], c.tokenHash, c.now, c.faults)
      else Trace([], true, 0)
    else if Call(Token, 1) in c.faults || Call(Token, 2) in c.faults then Failed([])
    else if subscribed then
      AndThen(Create(st, m.(status := Active, paidAt := Some(c.now), expiresAt := subscription), false, 0, c.faults),
              Ensure(m.login, 0, c.faults))
    else CreatePending(st, c, m)
  }

  /** The mailbox a successful CreateMailbox returns, and whether it is new. */
  function CreationReturned(st: State, account: string, c: Claim): (Mailbox, bool) {
    var subscription := if account in st.accounts then st.accounts[account] else None;
    var m := NewMailbox(c, "", 0).(accountId := account, fingerprint := "");
    var pending := Find(st.rows, PendingOf(account));
    if !st.freeMode && After(subscription, c.now) then
      (m.(status := Active, paidAt := Some(c.now), expiresAt := subscription), true)
    else if pending.None? then (PendingRow(st, c, m), true)
    else if st.freeMode then (WithToken(st.rows[pending.value], c.tokenHash, c.now), false)
    else (st.rows[pending.value], false)
  }

  // ---------- access ----------

  /** What a resolve hands out; host, port and password are not part of the model. */
  datatype Credentials = Credentials(id: string, login: string, accessToken: string)

  function CredentialsOf(m: Mailbox): Credentials {
    Credentials(m.id, m.login, m.accessToken)
  }

  const PROTOCOL := "imap"

  /** An expiry on sight: its error is dropped, and the call fails in any case. */
  function ExpireOnSight(st: State, k: nat, m: Mailbox, now: Time, faults: Faults): Trace {
    if !st.freeMode && m.status == Active && m.expiresAt.Some? && m.expiresAt.value <= now then
      Failed(Expire(st, k, m, Lapsed, 0, faults).effects)
    else Failed([])
  }

  /** ResolveAccessByKey. */
  function ResolveByKey(st: State, fingerprint: string, now: Time, faults: Faults): Trace {
    if fingerprint == "" || Call(Lookup, 0) in faults then Failed([])
    else
      match Find(st.rows, ByFingerprint(fingerprint))
      case None => Failed([])
      case Some(k) =>
        var m := st.rows[k];
        if Usable(m, now) then Ensure(m.login, 1, faults) else ExpireOnSight(st, k, m, now, faults)
  }

  /** validateMailboxSubscription. */
  function ValidateSubscription(st: State, k: nat, m: Mailbox, now: Time, faults: Faults): Trace {
    if m.KeyBound() then
      if Usable(m, now) then Trace([], true, 0) else ExpireOnSight(st, k, m, now, faults)
    else if Call(AccountRead, 0) in faults || m.accountId !in st.accounts then Failed([])
    else if st.freeMode then
      if Usable(m, now) then Trace([], true, 0) else Failed([])
    else if m.expiresAt.None? && m.status == Active && m.paidAt.Some? then Trace([], true, 0)
    else if !After(st.accounts[m.accountId], now) then
      Failed(if m.status == Active then Expire(st, k, m, Lapsed, 0, faults).effects else [])
    else if m.status != Active then
      var row := m.(status := Active, expiresAt := st.accounts[m.accountId]);
      Trace(Update(st, k, row, Synced, 0, faults).effects, true, 0)
    else Trace([], true, 0)
  }

  /** ResolveAccessByToken, and the message reads that begin like it. */
  function ResolveByToken(st: State, accessToken: string, now: Time, faults: Faults): Trace {
    if Call(Lookup, 0) in faults then Failed([])
    else
      match Find(st.rows, ByAccessToken(accessToken))
      case None => Failed([])
      case Some(k) => AndThen(ValidateSubscription(st, k, st.rows[k], now, faults), Ensure(st.rows[k].login, 1, faults))
  }

  // ---------- administration ----------

  /** RenewMailbox. */
  function AdminRenew(st: State, id: string, paidAt: Time, expiresAt: Time, faults: Faults): Trace {
    if st.freeMode then Trace([], true, 0)
    else if Call(Lookup, 0) in faults then Failed([])
    else
      match Find(st.rows, ById(id))
      case None => Failed([])
      case Some(k) =>
        Update(st, k, st.rows[k].(status := Active, paidAt := Some(paidAt), expiresAt := Some(expiresAt)), Admin, 0,
               faults)
  }

  /** ExpireMailboxByID. */
  function AdminExpire(st: State, id: string, faults: Faults): Trace {
    if st.freeMode then Trace([], true, 0)
    else if Call(Lookup, 0) in faults then Failed([])
    else
      match Find(st.rows, ById(id))
      case None => Failed([])
      case Some(k) => Expire(st, k, st.rows[k], Admin, 0, faults)
  }

  /** ReprovisionMailbox; a failed lookup counts as a missing row. */
  function Reprovision(st: State, id: string, fingerprint: string, expiresAt: Time, c: Claim): Trace {
    var found := Find(st.rows, ById(id));
    if Call(Lookup, 0) !in c.faults && found.Some? then
      var m := st.rows[found.value];
      var row := m.(fingerprint := fingerprint, status := Active, paidAt := Some(c.now), expiresAt := Some(expiresAt));
      AndThen(Update(st, found.value, row, Admin, 0, c.faults), Ensure(m.login, 0, c.faults))
    else if Call(Token, 1) in c.faults || Call(Token, 2) in c.faults then Failed([])
    else
      var row := NewMailbox(c, "", 0).(id := id, fingerprint := fingerprint, status := Active,
                                       paidAt := Some(c.now), expiresAt := Some(expiresAt));
      AndThen(Create(st, row, true, 0, c.faults), Ensure(row.login, 0, c.faults))
  }

  // ---------- runs ----------

  datatype Op =
    | Claiming(claim: Claim)
    | Creating(account: string, claim: Claim)
    | Activating(hash: string, now: Time, faults: Faults)
    | Paying(session: string, now: Time, faults: Faults)
    | Polling(feed: Option<seq<Charge>>, faults: Faults)
    | ReconcilingPending(now: Time, replies: map<string, SessionReply>, faults: Faults)
    | Sweeping(now: Time, faults: Faults)
    | Disabling(faults: Faults)
    | Switching(tokens: seq<string>, now: Time, faults: Faults)
    | ResolvingKey(fingerprint: string, now: Time, faults: Faults)
    | ResolvingToken(accessToken: string, now: Time, faults: Faults)
    | Renewing(id: string, paidAt: Time, expiresAt: Time, faults: Faults)
    | Expiring(id: string, faults: Faults)
    | Reprovisioning(id: string, fingerprint: string, expiresAt: Time, claim: Claim)
    | SettingMode(on: bool)

  /** The token generator answers with enough tokens, and a gateway's links are not blank. */
  predicate Answers(st: State, op: Op) {
    match op
    case Claiming(c) => LinkAnswers(st, c)
    case Creating(_, c) => LinkAnswers(st, c)
    case Switching(tokens, _, _) => |tokens| >= |st.rows| && forall i :: 0 <= i < |tokens| ==> tokens[i] != ""
    case _ => true
  }

  predicate LinkAnswers(st: State, c: Claim) {
    && c.newUrl != "" && c.tokenHash != ""
    && (!st.cfg.openCollective ==> c.newSession != "")
  }

  function Exec(st: State, op: Op): Trace
    requires Answers(st, op)
  {
    match op
    case Claiming(c) => ClaimMailbox(st, c)
    case Creating(account, c) => CreateMailbox(st, account, c)
    case Activating(hash, now, faults) => Activate(st, hash, now, faults)
    case Paying(session, now, faults) => MarkPaid(st, session, None, now, 0, faults)
    case Polling(feed, faults) => Poll(st, feed, faults)
    case ReconcilingPending(now, replies, faults) => ReconcilePending(st, now, replies, faults)
    case Sweeping(now, faults) => Sweep(st, now, faults)
    case Disabling(faults) => DisableExpired(st, faults)
    case Switching(tokens, now, faults) => Switchover(st, tokens, now, faults)
    case ResolvingKey(fingerprint, now, faults) => ResolveByKey(st, fingerprint, now, faults)
    case ResolvingToken(accessToken, now, faults) => ResolveByToken(st, accessToken, now, faults)
    case Renewing(id, paidAt, expiresAt, faults) => AdminRenew(st, id, paidAt, expiresAt, faults)
    case Expiring(id, faults) => AdminExpire(st, id, faults)
    case Reprovisioning(id, fingerprint, expiresAt, c) => Reprovision(st, id, fingerprint, expiresAt, c)
    case SettingMode(on) => Trace([SwitchMode(on)], true, 0)
  }
}
