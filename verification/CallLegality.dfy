/** Every service call performs legal writes only, whatever faults it meets. */
module CallLegality {
  import opened Calendar
  import opened Domain
  import opened Lifecycle
  import opened PollSteps
  import opened Legality

  lemma TokenLegal(st: State, k: nat, m: Mailbox, hash: string, now: Time, i: nat, faults: Faults)
    requires st.freeMode && hash != "" && k < |st.rows| && st.rows[k] == m && m.status == PendingPayment
    ensures LegalRun(st, Update(st, k, WithToken(m, hash, now), Tokened(now), i, faults).effects)
    ensures Quiet(Update(st, k, WithToken(m, hash, now), Tokened(now), i, faults).effects)
  {
    UpdateLegal(st, k, WithToken(m, hash, now), Tokened(now), i, faults);
  }

  lemma {:induction false} SwitchPrefixLegal(st: State, listed: seq<nat>, n: nat, tokens: seq<string>, now: Time,
                                             faults: Faults)
    requires st.freeMode
    requires n <= |listed| <= |tokens| && Increasing(listed)
    requires forall i :: 0 <= i < |listed| ==> listed[i] < |st.rows| && st.rows[listed[i]].status == PendingPayment
    requires forall i :: 0 <= i < |tokens| ==> tokens[i] != ""
    ensures LegalRun(st, SwitchPrefix(st, listed, n, tokens, now, faults).effects)
    ensures Quiet(SwitchPrefix(st, listed, n, tokens, now, faults).effects)
  {
    hide Update; hide WithToken; hide Replay; hide LegalRun; hide HasValidToken; hide Legal; hide Consistent;
    if n == 0 {
      LegalNothing(st);
    } else {
      SwitchPrefixLegal(st, listed, n - 1, tokens, now, faults);
      var before := SwitchPrefix(st, listed, n - 1, tokens, now, faults);
      var k := listed[n - 1];
      var m := st.rows[k];
      if before.ok && !HasValidToken(m, now)
         && !(Call(Token, n - 1) in faults || st.cfg.publicBaseUrl == "" || Call(Mail, n - 1) in faults) {
        var mid := Replay(st, before.effects);
        var step := Update(mid, k, WithToken(m, tokens[n - 1], now), Tokened(now), n - 1, faults);
        var p := SwitchRows(st, listed, n - 1, tokens, now, faults);
        assert mid.rows[k] == m by { TokenedRow(st.rows, listed, n - 1, tokens, now, k); }
        ModeKept(st, before.effects);
        TokenLegal(mid, k, m, tokens[n - 1], now, n - 1, faults);
        LegalConcat(st, before.effects, step.effects);
      }
    }
  }

  lemma ClearedLegal(st: State, cleared: seq<Effect>)
    requires cleared == [ClearExpiries, ClearSubscriptions]
    ensures LegalRun(st, cleared[..1]) && LegalRun(st, cleared)
    ensures Replay(st, cleared).freeMode == st.freeMode
    ensures |Replay(st, cleared).rows| == |st.rows|
    ensures |Select(Replay(st, cleared).rows, PendingRows)| <= |st.rows|
  {
    assert cleared[..1] == [ClearExpiries];
    LegalOne(st, ClearExpiries);
    ReplayTwo(st, ClearExpiries, ClearSubscriptions);
    SwitchoverSizes(st, cleared);
  }

  lemma SwitchoverLegal(st: State, tokens: seq<string>, now: Time, faults: Faults)
    requires Answers(st, Switching(tokens, now, faults))
    ensures LegalRun(st, Switchover(st, tokens, now, faults).effects)
  {
    hide Apply; hide SwitchPrefix; hide Legal; hide Replay; hide Select;
    LegalNothing(st);
    var cleared := [ClearExpiries, ClearSubscriptions];
    ClearedLegal(st, cleared);
    assert cleared[..1] == [ClearExpiries];
    var st1 := Replay(st, cleared);
    if st.freeMode {
      var listed := Select(st1.rows, PendingRows);
      SwitchPrefixLegal(st1, listed, |listed|, tokens, now, faults);
      LegalConcat(st, cleared, SwitchPrefix(st1, listed, |listed|, tokens, now, faults).effects);
    }
  }

  lemma IssueLinkLegal(st: State, k: nat, hash: string, now: Time, faults: Faults)
    requires st.freeMode && hash != "" && k < |st.rows|
    requires st.rows[k].status == PendingPayment || !Usable(st.rows[k], now)
    ensures LegalRun(st, IssueLink(st, k, st.rows[k], hash, now, faults).effects)
  {
    var row := WithToken(st.rows[k], hash, now);
    UpdateLegal(st, k, row, Tokened(now), 0, faults);
    var first := Update(st, k, row, Tokened(now), 0, faults);
    assert first.effects + [] == first.effects;
  }

  lemma CreateLegal(st: State, row: Mailbox, byAdmin: bool, i: nat, faults: Faults)
    requires LegalInsert(st, row, byAdmin)
    ensures LegalRun(st, Create(st, row, byAdmin, i, faults).effects)
    ensures row.status == Active ==>
      LegalRun(st, AndThen(Create(st, row, byAdmin, i, faults), Ensure(row.login, i, faults)).effects)
  {
    var first := Create(st, row, byAdmin, i, faults);
    if first.ok {
      LegalOne(st, Insert(row, byAdmin));
      ReplayOne(st, Insert(row, byAdmin));
      if row.status == Active {
        EnsureLegal(Apply(st, Insert(row, byAdmin)), |st.rows|, i, faults);
        LegalConcat(st, first.effects, Ensure(row.login, i, faults).effects);
      }
    }
  }

  /** A poll leaves a row alone whose session is not an Open Collective tag. */
  lemma {:induction false} PollLeaves(st: State, charges: seq<Charge>, n: nat, faults: Faults, k: nat)
    requires !st.freeMode && n <= |charges| && k < |st.rows| && !HasTagPrefix(st.rows[k].session)
    ensures var after := Replay(st, PollPrefix(st, charges, n, faults).effects);
            !after.freeMode && |after.rows| == |st.rows| && after.rows[k] == st.rows[k]
  {
    hide CreditCharge; hide HasTagPrefix; hide Replay;
    if n == 0 {
      ReplayNothing(st);
    } else {
      PollLeaves(st, charges, n - 1, faults, k);
      var before := PollPrefix(st, charges, n - 1, faults);
      if before.ok {
        var mid := Replay(st, before.effects);
        var step := CreditCharge(mid, charges[n - 1], n - 1, faults);
        ReplayConcat(st, before.effects, step.effects);
        CreditRows(mid, charges[n - 1], n - 1, faults);
        CreditQuiet(mid, charges[n - 1], n - 1, faults);
        ModeKept(mid, step.effects);
      }
    }
  }

  lemma ClaimPollLegal(st: State, c: Claim)
    requires Consistent(st)
    ensures LegalRun(st, ClaimPoll(st, c).effects) && Quiet(ClaimPoll(st, c).effects)
    ensures forall k: nat :: k < |st.rows| && !st.freeMode && !HasTagPrefix(st.rows[k].session) ==>
              var after := Replay(st, ClaimPoll(st, c).effects);
              k < |after.rows| && after.rows[k] == st.rows[k]
  {
    LegalNothing(st);
    ReplayNothing(st);
    if ClaimPoll(st, c).effects == [] {
      return;
    }
    var e := Polled(c.now);
    var st1 := Apply(st, e);
    LegalOne(st, e);
    ReplayOne(st, e);
    PollLegal(st1, c.feed, c.pollFaults);
    var poll := Poll(st1, c.feed, c.pollFaults);
    LegalConcat(st, [e], poll.effects);
    ReplayConcat(st, [e], poll.effects);
    forall k: nat | k < |st.rows| && !st.freeMode && !HasTagPrefix(st.rows[k].session)
      ensures var after := Replay(st, ClaimPoll(st, c).effects);
              k < |after.rows| && after.rows[k] == st.rows[k]
    {
      if c.feed.Some? {
        PollLeaves(st1, c.feed.value, |c.feed.value|, c.pollFaults, k);
      }
    }
  }

  lemma NewCheckoutLegal(st: State, c: Claim, k: nat, coupon: string, granted: int)
    requires !st.freeMode && LinkAnswers(st, c) && k < |st.rows| && !Usable(st.rows[k], c.now)
    requires coupon != "" ==> granted == GIFT_MONTHS && !st.rows[k].couponUsed
    requires coupon == "" ==> granted == 0
    ensures LegalRun(st, NewCheckout(st, c, k, st.rows[k], coupon, granted).effects)
  {
    var existing := st.rows[k];
    var row := PricedRow(st.cfg, c, existing, coupon, granted);
    UpdateLegal(st, k, row, Priced(c.now), 0, c.faults);
    var first := Update(st, k, row, Priced(c.now), 0, c.faults);
    assert first.effects + [] == first.effects;
  }

  lemma ClaimPollOff(st: State, c: Claim)
    ensures !st.cfg.openCollective ==> ClaimPoll(st, c) == Failed([])
  {
  }

  /**
   * The copy a claim read before its poll is never written over a row that the
   * poll credited: a pending row with a tag returns its checkout instead.
   */
  lemma RepriceLegal(st: State, c: Claim, k: nat, coupon: string, granted: int)
    requires Consistent(st) && !st.freeMode && LinkAnswers(st, c) && k < |st.rows| && !Usable(st.rows[k], c.now)
    requires granted == (if coupon == "" then 0 else GIFT_MONTHS)
    ensures var existing := st.rows[k];
            var poll := if existing.status == PendingPayment then ClaimPoll(st, c) else Failed([]);
            LegalRun(st, Then(poll.effects, Reprice(Replay(st, poll.effects), c, k, existing, coupon, granted)).effects)
  {
    hide ClaimPoll; hide NewCheckout; hide UniqueRows; hide LegalRun; hide Replay;
    var existing := st.rows[k];
    var poll := if existing.status == PendingPayment then ClaimPoll(st, c) else Failed([]);
    var st1 := Replay(st, poll.effects);
    var rest := Reprice(st1, c, k, existing, coupon, granted);
    ClaimPollLegal(st, c);
    ModeKept(st, poll.effects);
    LegalNothing(st);
    LegalNothing(st1);
    ReplayNothing(st);
    if rest.effects != [] {
      assert st1.rows[k] == existing by {
        if st.cfg.openCollective {
          assert existing.status == PendingPayment ==> !HasTagPrefix(existing.session);
        } else {
          ClaimPollOff(st, c);
        }
      }
      NewCheckoutLegal(st1, c, k, coupon, granted);
    }
    LegalConcat(st, poll.effects, rest.effects);
  }

  lemma CreatePendingLegal(st: State, c: Claim, m: Mailbox)
    requires LinkAnswers(st, c) && m.id == c.id && m.status == PendingPayment && m.session == ""
    requires m.lastChargedAt.None?
    requires m.paidAt.None? && m.expiresAt.None? &&
        (m.grantedMonths == 0 || (m.grantedMonths == GIFT_MONTHS && m.couponUsed))
    ensures LegalRun(st, CreatePending(st, c, m).effects)
  {
    hide UniqueRows;
    var row := PendingRow(st, c, m);
    CreateLegal(st, row, false, 0, c.faults);
    var first := Create(st, row, false, 0, c.faults);
    assert first.effects + [] == first.effects;
  }

  lemma ClaimNewLegal(st: State, c: Claim, coupon: string, granted: int)
    requires LinkAnswers(st, c)
    requires granted == (if coupon == "" then 0 else GIFT_MONTHS)
    ensures LegalRun(st, ClaimNew(st, c, coupon, granted).effects)
  {
    hide CreatePending;
    CreatePendingLegal(st, c, NewMailbox(c, coupon, granted));
  }

  lemma ClaimLegal(st: State, c: Claim)
    requires Consistent(st) && LinkAnswers(st, c)
    ensures LegalRun(st, ClaimMailbox(st, c).effects)
  {
    hide ClaimNew;
    hide Reprice;
    hide IssueLink;
    hide ClaimPoll;
    var coupon := if st.freeMode then "" else c.coupon;
    var granted := ValidateCoupon(st.cfg, coupon);
    if granted.Some? {
      match Find(st.rows, ByFingerprint(c.fingerprint))
      case None => ClaimNewLegal(st, c, coupon, granted.value);
      case Some(k) =>
        if !Usable(st.rows[k], c.now) {
          if st.freeMode {
            IssueLinkLegal(st, k, c.tokenHash, c.now, c.faults);
          } else {
            RepriceLegal(st, c, k, coupon, granted.value);
            ClaimPollLegal(st, c);
          }
        }
    }
  }

  lemma CreateMailboxLegal(st: State, account: string, c: Claim)
    requires Consistent(st) && LinkAnswers(st, c)
    ensures LegalRun(st, CreateMailbox(st, account, c).effects)
  {
    hide IssueLink; hide CreatePending; hide Create; hide Ensure; hide UniqueRows; hide Find;
    var subscription := if account in st.accounts then st.accounts[account] else None;
    var m := NewMailbox(c, "", 0).(accountId := account, fingerprint := "");
    var pending := Find(st.rows, PendingOf(account));
    if account == "" {
      return;
    }
    if !st.freeMode && After(subscription, c.now) {
      CreateLegal(st, m.(status := Active, paidAt := Some(c.now), expiresAt := subscription), false, 0, c.faults);
    } else if pending.None? {
      CreatePendingLegal(st, c, m);
    } else if st.freeMode {
      IssueLinkLegal(st, pending.value, c.tokenHash, c.now, c.faults);
    }
  }

  lemma ActivateLegal(st: State, hash: string, now: Time, faults: Faults)
    requires Consistent(st)
    ensures LegalRun(st, Activate(st, hash, now, faults).effects)
  {
    var found := Find(st.rows, ByTokenHash(hash));
    if hash != "" && found.Some? {
      var m := st.rows[found.value];
      if m.status == Active {
        EnsureLegal(st, found.value, 0, faults);
      } else if m.status == PendingPayment && After(m.tokenExpiresAt, now) {
        var row := m.(status := Active, paidAt := Some(now), expiresAt := None);
        UpdateEnsureLegal(st, found.value, row, Why.Activated(now), 0, faults);
      }
    }
  }

  lemma ExpireOnSightLegal(st: State, k: nat, now: Time, faults: Faults)
    requires k < |st.rows|
    ensures LegalRun(st, ExpireOnSight(st, k, st.rows[k], now, faults).effects)
  {
    var m := st.rows[k];
    if !st.freeMode && m.status == Active && m.expiresAt.Some? {
      ExpireLegal(st, k, Lapsed, 0, faults);
    }
  }

  lemma ResolveByKeyLegal(st: State, fingerprint: string, now: Time, faults: Faults)
    requires Consistent(st)
    ensures LegalRun(st, ResolveByKey(st, fingerprint, now, faults).effects)
  {
    hide ExpireOnSight;
    var found := Find(st.rows, ByFingerprint(fingerprint));
    if found.Some? {
      if Usable(st.rows[found.value], now) {
        EnsureLegal(st, found.value, 1, faults);
      } else {
        ExpireOnSightLegal(st, found.value, now, faults);
      }
    }
  }

  /** A mailbox that passes validation is active, or is account-bound. */
  lemma ValidateLegal(st: State, k: nat, now: Time, faults: Faults)
    requires Consistent(st) && k < |st.rows|
    ensures var t := ValidateSubscription(st, k, st.rows[k], now, faults);
            && LegalRun(st, t.effects)
            && (t.ok ==> var after := Replay(st, t.effects);
                  && k < |after.rows| && after.rows[k].login == st.rows[k].login
                  && (after.rows[k].status == Active || !after.rows[k].KeyBound()))
  {
    hide Expire;
    var m := st.rows[k];
    if m.KeyBound() {
      ExpireOnSightLegal(st, k, now, faults);
    } else if m.accountId in st.accounts && !st.freeMode && !Unlimited(m) {
      if m.status == Active {
        ExpireLegal(st, k, Lapsed, 0, faults);
      } else {
        var row := m.(status := Active, expiresAt := st.accounts[m.accountId]);
        UpdateLegal(st, k, row, Synced, 0, faults);
        UpdateRows(st, k, row, Synced, 0, faults);
      }
    }
  }

  lemma ResolveByTokenLegal(st: State, accessToken: string, now: Time, faults: Faults)
    requires Consistent(st)
    ensures LegalRun(st, ResolveByToken(st, accessToken, now, faults).effects)
  {
    hide ValidateSubscription;
    var found := Find(st.rows, ByAccessToken(accessToken));
    if found.Some? {
      var k := found.value;
      var t := ValidateSubscription(st, k, st.rows[k], now, faults);
      ValidateLegal(st, k, now, faults);
      if t.ok {
        RunKeepsConsistent(st, t.effects);
        EnsureLegal(Replay(st, t.effects), k, 1, faults);
        LegalConcat(st, t.effects, Ensure(st.rows[k].login, 1, faults).effects);
      }
    }
  }

  lemma AdminLegal(st: State, op: Op)
    requires op.Renewing? || op.Expiring? || op.Reprovisioning?
    ensures LegalRun(st, Exec(st, op).effects)
  {
    hide Expire; hide UniqueRows; hide Find; hide LegalRun; hide Replay; hide Update; hide Create;
    hide Ensure; hide AndThen;
    LegalNothing(st);
    match op
    case Renewing(id, paidAt, expiresAt, faults) =>
      var found := Find(st.rows, ById(id));
      if found.Some? {
        var row := st.rows[found.value].(status := Active, paidAt := Some(paidAt), expiresAt := Some(expiresAt));
        UpdateLegal(st, found.value, row, Admin, 0, faults);
      }
    case Expiring(id, faults) =>
      var found := Find(st.rows, ById(id));
      if found.Some? {
        ExpireLegal(st, found.value, Admin, 0, faults);
      }
    case Reprovisioning(id, fingerprint, expiresAt, c) =>
      var found := Find(st.rows, ById(id));
      if found.Some? {
        var row := st.rows[found.value].(fingerprint := fingerprint, status := Active, paidAt := Some(c.now),
                                         expiresAt := Some(expiresAt));
        UpdateEnsureLegal(st, found.value, row, Admin, 0, c.faults);
      }
      var row := NewMailbox(c, "", 0).(id := id, fingerprint := fingerprint, status := Active,
                                       paidAt := Some(c.now), expiresAt := Some(expiresAt));
      CreateLegal(st, row, true, 0, c.faults);
  }

  /** All calls. */
  lemma ExecLegal(st: State, op: Op)
    requires Consistent(st) && Answers(st, op)
    ensures LegalRun(st, Exec(st, op).effects)
  {
    hide ClaimMailbox; hide CreateMailbox; hide Activate; hide MarkPaid; hide ResolveByKey; hide ResolveByToken;
    hide Switchover; hide Poll; hide AdminRenew; hide AdminExpire; hide Reprovision; hide PendingPrefix;
    match op
    case Claiming(c) => ClaimLegal(st, c);
    case Creating(account, c) => CreateMailboxLegal(st, account, c);
    case Activating(hash, now, faults) => ActivateLegal(st, hash, now, faults);
    case Paying(session, now, faults) => MarkPaidLegal(st, session, None, now, 0, faults);
    case Polling(feed, faults) => PollLegal(st, feed, faults);
    case ReconcilingPending(now, replies, faults) =>
      var listed := Select(st.rows, PendingRows);
      PendingPrefixLegal(st, listed, |listed|, now, replies, faults);
    case Sweeping(now, faults) =>
      var due := Select(st.rows, ActiveDue(now));
      if !st.freeMode {
        SweepPrefixLegal(st, due, |due|, now, faults);
      }
    case Disabling(faults) =>
      var listed := Select(st.rows, ExpiredRows);
      DisablePrefixLegal(st, listed, |listed|, faults);
    case Switching(tokens, now, faults) => SwitchoverLegal(st, tokens, now, faults);
    case ResolvingKey(fingerprint, now, faults) => ResolveByKeyLegal(st, fingerprint, now, faults);
    case ResolvingToken(accessToken, now, faults) => ResolveByTokenLegal(st, accessToken, now, faults);
    case SettingMode(on) => LegalOne(st, SwitchMode(on));
    case _ => AdminLegal(st, op);
  }
}
