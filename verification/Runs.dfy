/** Runs of service calls, as one long journal of legal writes. */
module Runs {
  import opened Domain
  import opened Lifecycle
  import opened Legality
  import opened CallLegality

  const ALL_BUT_ADMIN: set<Kind> :=
    {Inserts, Charges, PaysNow, Prices, Tokens, Activates, Lapses, Syncs, Clears, Modes, Other}

  /** A call with its answers from the ports; answers no port can give never reach the service. */
  function Serve(st: State, op: Op): Trace {
    if Answers(st, op) then Exec(st, op) else Failed([])
  }

  function Journal(st: State, ops: seq<Op>): seq<Effect>
    decreases |ops|
  {
    if ops == [] then []
    else
      var before := Journal(st, ops[..|ops| - 1]);
      before + Serve(Replay(st, before), ops[|ops| - 1]).effects
  }

  function Run(st: State, ops: seq<Op>): State {
    Replay(st, Journal(st, ops))
  }

  lemma RunStep(st: State, ops: seq<Op>)
    requires ops != []
    ensures var mid := Run(st, ops[..|ops| - 1]);
            Run(st, ops) == Replay(mid, Serve(mid, ops[|ops| - 1]).effects)
  {
    var before := Journal(st, ops[..|ops| - 1]);
    ReplayConcat(st, before, Serve(Replay(st, before), ops[|ops| - 1]).effects);
  }

  lemma EmptyRun(st: State)
    ensures Journal(st, []) == [] && Run(st, []) == st
  {
  }

  /** One more call. */
  lemma Onward(st: State, ops: seq<Op>, op: Op)
    ensures var mid := Run(st, ops);
            && Journal(st, ops + [op]) == Journal(st, ops) + Serve(mid, op).effects
            && Run(st, ops + [op]) == Replay(mid, Serve(mid, op).effects)
  {
    hide Serve;
    assert (ops + [op])[..|ops|] == ops;
    RunStep(st, ops + [op]);
  }

  lemma {:induction false} RunLegal(st: State, ops: seq<Op>)
    requires Consistent(st)
    ensures LegalRun(st, Journal(st, ops))
    ensures Consistent(Run(st, ops))
    decreases |ops|
  {
    if ops != [] {
      var before := Journal(st, ops[..|ops| - 1]);
      var op := ops[|ops| - 1];
      RunLegal(st, ops[..|ops| - 1]);
      if Answers(Replay(st, before), op) {
        ExecLegal(Replay(st, before), op);
      }
      LegalConcat(st, before, Serve(Replay(st, before), op).effects);
    }
    RunKeepsConsistent(st, Journal(st, ops));
  }

  /** A run that stops in the middle of a call is legal up to there. */
  lemma {:induction false} LegalPrefix(st: State, effects: seq<Effect>, j: nat)
    requires LegalRun(st, effects) && j <= |effects|
    ensures LegalRun(st, effects[..j])
    decreases |effects| - j
  {
    if j < |effects| {
      LegalPrefix(st, effects, j + 1);
      assert effects[..j + 1][..j] == effects[..j];
    } else {
      assert effects[..j] == effects;
    }
  }

  // ---------- which call writes what ----------

  datatype Kind =
    | Inserts | Charges | PaysNow | Prices | Tokens | Activates | Lapses | Syncs | Admins | Clears | Modes | Other

  function KindOf(e: Effect): Kind {
    match e
    case Insert(_, byAdmin) => if byAdmin then Admins else Inserts
    case Save(_, _, Paid(charge, _, _)) => if charge.Some? then Charges else PaysNow
    case Save(_, _, Renewed(_, _)) => Charges
    case Save(_, _, Priced(_)) => Prices
    case Save(_, _, Tokened(_)) => Tokens
    case Save(_, _, Activated(_)) => Activates
    case Save(_, _, Lapsed) => Lapses
    case Save(_, _, Synced) => Syncs
    case Save(_, _, Admin) => Admins
    case ClearExpiries => Clears
    case SwitchMode(_) => Modes
    case _ => Other
  }

  function KindsOf(op: Op): set<Kind> {
    match op
    case Claiming(_) => {Inserts, Charges, Prices, Tokens, Other}
    case Creating(_, _) => {Inserts, Tokens, Other}
    case Activating(_, _, _) => {Activates, Other}
    case Paying(_, _, _) => {PaysNow, Other}
    case Polling(_, _) => {Charges, Other}
    case ReconcilingPending(_, _, _) => {PaysNow, Other}
    case Sweeping(_, _) => {Lapses, Other}
    case Disabling(_) => {Other}
    case Switching(_, _, _) => {Clears, Tokens, Other}
    case ResolvingKey(_, _, _) => {Lapses, Other}
    case ResolvingToken(_, _, _) => {Lapses, Syncs, Other}
    case SettingMode(_) => {Modes}
    case _ => {Admins, Other}
  }

  ghost predicate Only(effects: seq<Effect>, kinds: set<Kind>) {
    forall e :: e in effects ==> KindOf(e) in kinds
  }

  lemma MarkPaidKinds(st: State, session: string, charge: Option<Charge>, now: int, i: nat, faults: Faults)
    ensures Only(MarkPaid(st, session, charge, now, i, faults).effects,
                 {if charge.Some? then Charges else PaysNow, Other})
  {
  }

  lemma CreditKinds(st: State, c: Charge, i: nat, faults: Faults)
    ensures Only(CreditCharge(st, c, i, faults).effects, {Charges, Other})
  {
    hide MarkPaid;
    MarkPaidKinds(st, c.tag, Some(c), c.at, i, faults);
  }

  lemma {:induction false} PollKinds(st: State, charges: seq<Charge>, n: nat, faults: Faults)
    requires n <= |charges|
    ensures Only(PollPrefix(st, charges, n, faults).effects, {Charges, Other})
  {
    hide CreditCharge; hide KindOf;
    if n > 0 {
      PollKinds(st, charges, n - 1, faults);
      CreditKinds(Replay(st, PollPrefix(st, charges, n - 1, faults).effects), charges[n - 1], n - 1, faults);
    }
  }

  lemma {:induction false} PendingKinds(st: State, listed: seq<nat>, n: nat, now: int,
                                        replies: map<string, SessionReply>, faults: Faults)
    requires n <= |listed| && forall i :: 0 <= i < |listed| ==> listed[i] < |st.rows|
    ensures Only(PendingPrefix(st, listed, n, now, replies, faults).effects, {PaysNow, Other})
  {
    hide MarkPaid; hide KindOf;
    if n > 0 {
      PendingKinds(st, listed, n - 1, now, replies, faults);
      var mid := Replay(st, PendingPrefix(st, listed, n - 1, now, replies, faults).effects);
      MarkPaidKinds(mid, st.rows[listed[n - 1]].session, None, now, n - 1, faults);
    }
  }

  lemma {:induction false} SweepKinds(st: State, due: seq<nat>, n: nat, faults: Faults)
    requires n <= |due| && forall i :: 0 <= i < |due| ==> due[i] < |st.rows|
    ensures Only(SweepPrefix(st, due, n, faults).effects, {Lapses, Other})
  {
    hide Replay; hide UniqueRows;
    if n > 0 {
      SweepKinds(st, due, n - 1, faults);
    }
  }

  lemma {:induction false} DisableKinds(st: State, listed: seq<nat>, n: nat, faults: Faults)
    requires n <= |listed| && forall i :: 0 <= i < |listed| ==> listed[i] < |st.rows|
    ensures Only(DisablePrefix(st, listed, n, faults).effects, {Other})
  {
    if n > 0 {
      DisableKinds(st, listed, n - 1, faults);
    }
  }

  lemma TokenKind(k: nat, row: Mailbox, now: int)
    ensures KindOf(Save(k, row, Tokened(now))) == Tokens
  {
  }

  lemma {:induction false} SwitchKinds(st: State, listed: seq<nat>, n: nat, tokens: seq<string>, now: int,
                                       faults: Faults)
    requires n <= |listed| <= |tokens| && forall i :: 0 <= i < |listed| ==> listed[i] < |st.rows|
    ensures Only(SwitchPrefix(st, listed, n, tokens, now, faults).effects, {Tokens})
  {
    hide WithToken; hide HasValidToken; hide KindOf;
    if n > 0 {
      SwitchKinds(st, listed, n - 1, tokens, now, faults);
      TokenKind(listed[n - 1], WithToken(st.rows[listed[n - 1]], tokens[n - 1], now), now);
    }
  }

  lemma SwitchoverKinds(st: State, tokens: seq<string>, now: int, faults: Faults)
    requires |tokens| >= |st.rows|
    ensures Only(Switchover(st, tokens, now, faults).effects, {Clears, Tokens, Other})
  {
    hide Apply;
    var cleared := [ClearExpiries, ClearSubscriptions];
    assert Only(cleared, {Clears, Other});
    SwitchoverSizes(st, cleared);
    if st.freeMode {
      var st1 := Replay(st, cleared);
      var listed := Select(st1.rows, PendingRows);
      SwitchKinds(st1, listed, |listed|, tokens, now, faults);
    }
  }

  lemma ClaimPollKinds(st: State, c: Claim)
    ensures Only(ClaimPoll(st, c).effects, {Charges, Other})
  {
    if c.feed.Some? {
      PollKinds(Apply(st, Polled(c.now)), c.feed.value, |c.feed.value|, c.pollFaults);
    }
  }

  lemma ClaimNewKinds(st: State, c: Claim, coupon: string, granted: int)
    ensures Only(ClaimNew(st, c, coupon, granted).effects, {Inserts})
  {
  }

  lemma IssueLinkKinds(st: State, k: nat, m: Mailbox, hash: string, now: int, faults: Faults)
    ensures Only(IssueLink(st, k, m, hash, now, faults).effects, {Tokens})
  {
  }

  lemma RepriceKinds(st: State, c: Claim, k: nat, existing: Mailbox, coupon: string, granted: int)
    ensures Only(Reprice(st, c, k, existing, coupon, granted).effects, {Prices})
  {
  }

  lemma ClaimKinds(st: State, c: Claim)
    ensures Only(ClaimMailbox(st, c).effects, {Inserts, Charges, Prices, Tokens, Other})
  {
    hide ClaimPoll; hide Reprice; hide ClaimNew; hide IssueLink; hide KindOf;
    ClaimPollKinds(st, c);
    match Find(st.rows, ByFingerprint(c.fingerprint))
    case None =>
      var coupon := if st.freeMode then "" else c.coupon;
      ClaimNewKinds(st, c, coupon, ValidateCoupon(st.cfg, coupon).GetOr(0));
    case Some(k) =>
      var existing := st.rows[k];
      IssueLinkKinds(st, k, existing, c.tokenHash, c.now, c.faults);
      var poll := if existing.status == PendingPayment then ClaimPoll(st, c) else Failed([]);
      RepriceKinds(Replay(st, poll.effects), c, k, existing, c.coupon, ValidateCoupon(st.cfg, c.coupon).GetOr(0));
  }

  lemma CreateMailboxKinds(st: State, account: string, c: Claim)
    ensures Only(CreateMailbox(st, account, c).effects, {Inserts, Tokens, Other})
  {
    hide IssueLink;
    var pending := Find(st.rows, PendingOf(account));
    if pending.Some? {
      IssueLinkKinds(st, pending.value, st.rows[pending.value], c.tokenHash, c.now, c.faults);
    }
  }

  lemma ResolveByTokenKinds(st: State, accessToken: string, now: int, faults: Faults)
    ensures Only(ResolveByToken(st, accessToken, now, faults).effects, {Lapses, Syncs, Other})
  {
    hide Replay; hide UniqueRows; hide Apply; hide Matches; hide FindFrom;
  }

  lemma ReprovisionKinds(st: State, id: string, fingerprint: string, expiresAt: int, c: Claim)
    ensures Only(Reprovision(st, id, fingerprint, expiresAt, c).effects, {Admins, Other})
  {
    hide Find; hide UniqueRows; hide NewMailbox;
  }

  lemma DirectKinds(st: State, op: Op)
    requires Answers(st, op)
    requires op.Activating? || op.ResolvingKey? || op.Renewing? || op.Expiring? || op.Reprovisioning? || op.SettingMode?
    ensures Only(Exec(st, op).effects, KindsOf(op))
  {
    hide UniqueRows; hide Find; hide Usable; hide After; hide Reprovision;
    if op.Reprovisioning? {
      ReprovisionKinds(st, op.id, op.fingerprint, op.expiresAt, op.claim);
    }
  }

  lemma ListedKinds(st: State, op: Op)
    requires Answers(st, op)
    requires op.Polling? || op.ReconcilingPending? || op.Sweeping? || op.Disabling?
    ensures Only(Exec(st, op).effects, KindsOf(op))
  {
    hide KindOf; hide PollPrefix; hide PendingPrefix; hide SweepPrefix; hide DisablePrefix;
    match op
    case Polling(feed, faults) =>
      if feed.Some? {
        PollKinds(st, feed.value, |feed.value|, faults);
      }
    case ReconcilingPending(now, replies, faults) =>
      var listed := Select(st.rows, PendingRows);
      PendingKinds(st, listed, |listed|, now, replies, faults);
    case Sweeping(now, faults) =>
      var due := Select(st.rows, ActiveDue(now));
      SweepKinds(st, due, |due|, faults);
    case Disabling(faults) =>
      var listed := Select(st.rows, ExpiredRows);
      DisableKinds(st, listed, |listed|, faults);
  }

  lemma ExecKinds(st: State, op: Op)
    requires Answers(st, op)
    ensures Only(Exec(st, op).effects, KindsOf(op))
  {
    hide KindOf; hide ClaimMailbox; hide MarkPaid; hide Switchover; hide CreateMailbox; hide ResolveByToken;
    match op
    case Claiming(c) => ClaimKinds(st, c);
    case Creating(account, c) => CreateMailboxKinds(st, account, c);
    case Paying(session, now, faults) => MarkPaidKinds(st, session, None, now, 0, faults);
    case Switching(tokens, now, faults) => SwitchoverKinds(st, tokens, now, faults);
    case ResolvingToken(accessToken, now, faults) => ResolveByTokenKinds(st, accessToken, now, faults);
    case Polling(_, _) => ListedKinds(st, op);
    case ReconcilingPending(_, _, _) => ListedKinds(st, op);
    case Sweeping(_, _) => ListedKinds(st, op);
    case Disabling(_) => ListedKinds(st, op);
    case _ => DirectKinds(st, op);
  }

  ghost predicate OnlyOps(ops: seq<Op>, kinds: set<Kind>) {
    forall i :: 0 <= i < |ops| ==> KindsOf(ops[i]) <= kinds
  }

  /** A run writes no other kinds than its calls may. */
  lemma {:induction false} RunKinds(st: State, ops: seq<Op>, kinds: set<Kind>)
    requires OnlyOps(ops, kinds)
    ensures Only(Journal(st, ops), kinds)
    decreases |ops|
  {
    hide KindOf; hide KindsOf;
    if ops != [] {
      var op := ops[|ops| - 1];
      var mid := Run(st, ops[..|ops| - 1]);
      RunKinds(st, ops[..|ops| - 1], kinds);
      if Answers(mid, op) {
        ExecKinds(mid, op);
      }
    }
  }
}
