/** Who gets in: when access is granted, and that what is paid for is enabled. */
module Access {
  import opened Calendar
  import opened Domain
  import opened Lifecycle
  import opened PollSteps
  import opened Legality
  import opened FreeActivation
  import opened PollConvergence

  // ---------- access ----------

  /** Active past its expiry, seen in paid mode. */
  predicate PastDue(st: State, m: Mailbox, now: Time) {
    !st.freeMode && m.status == Active && m.expiresAt.Some? && m.expiresAt.value <= now
  }

  /** The row is found by its key. */
  ghost predicate KeyHolder(st: State, k: nat, fingerprint: string) {
    UniqueRows(st.rows) && fingerprint != "" && k < |st.rows| && st.rows[k].fingerprint == fingerprint
  }

  /**
   * The login of row k is disabled, if it is known, and then the row is expired;
   * a failure of either leaves the rest undone. Nothing else changes.
   */
  ghost predicate ExpiredOnSight(st: State, after: State, k: nat, faults: Faults)
    requires k < |st.rows|
  {
    var m := st.rows[k];
    var disabled := Call(Provision, 0) !in faults;
    var expired := disabled && Call(RowWrite, 0) !in faults;
    after == st.(rows := if expired then st.rows[k := m.(status := Expired)] else st.rows,
                 enabled := if disabled && m.login in st.enabled then st.enabled[m.login := false] else st.enabled)
  }

  /**
   * A key gets in exactly when its row is active, paid for, and not at its
   * expiry, and is then enabled; a row past its expiry is expired and disabled
   * on sight, any other is left alone. A failed lookup or a failure to enable
   * the login refuses the key.
   */
  lemma KeyAccess(st: State, k: nat, fingerprint: string, now: Time, faults: Faults)
    requires KeyHolder(st, k, fingerprint)
    ensures var t := ResolveByKey(st, fingerprint, now, faults);
            var after := Replay(st, t.effects);
            var m := st.rows[k];
            var found := Call(Lookup, 0) !in faults;
            && (t.ok <==> found && Call(Provision, 1) !in faults && m.status == Active && m.paidAt.Some? &&
                          (m.expiresAt.None? || now < m.expiresAt.value))
            && (t.ok ==> after == st.(enabled := st.enabled[m.login := true]))
            && (found && PastDue(st, m, now) ==> ExpiredOnSight(st, after, k, faults))
            && (!t.ok && !(found && PastDue(st, m, now)) ==> after == st)
  {
    hide UniqueRows;
    var m := st.rows[k];
    FindUnique(st.rows, ByFingerprint(fingerprint), k);
    ReplayNothing(st);
    if Usable(m, now) {
      ReplayOne(st, Enable(m.login));
    } else if PastDue(st, m, now) {
      ExpiresRow(st, k, Lapsed, faults);
    }
  }

  lemma ExpiresRow(st: State, k: nat, why: Why, faults: Faults)
    requires UniqueRows(st.rows) && k < |st.rows|
    ensures var t := Expire(st, k, st.rows[k], why, 0, faults);
            ExpiredOnSight(st, Replay(st, t.effects), k, faults) &&
            (t.ok <==> Call(Provision, 0) !in faults && Call(RowWrite, 0) !in faults)
  {
    hide UniqueRows; hide Replay;
    var m := st.rows[k];
    var row := m.(status := Expired);
    var e, f := Disable(m.login), Save(k, row, why);
    UniqueWith(st.rows, k, row);
    assert [e] + [f] == [e, f] && [e] + [] == [e];
    ReplayNothing(st);
    ReplayOne(st, e);
    ReplayTwo(st, e, f);
  }

  /** Among paid active rows, what a key lets in is what the sweep leaves alone. */
  lemma LetInOrDue(st: State, k: nat, fingerprint: string, now: Time)
    requires KeyHolder(st, k, fingerprint) && st.rows[k].status == Active && st.rows[k].paidAt.Some?
    ensures ResolveByKey(st, fingerprint, now, {}).ok <==> k !in Select(st.rows, ActiveDue(now))
  {
    KeyAccess(st, k, fingerprint, now, {});
  }

  /** What the access token of a row entitles to: the row's own time, or the time of its account. */
  predicate Entitled(st: State, m: Mailbox, now: Time) {
    if m.KeyBound() || (st.freeMode && m.accountId in st.accounts) then
      m.status == Active && m.paidAt.Some? && (m.expiresAt.None? || now < m.expiresAt.value)
    else
      && m.accountId in st.accounts
      && ((m.status == Active && m.paidAt.Some? && m.expiresAt.None?)
          || (st.accounts[m.accountId].Some? && now < st.accounts[m.accountId].value))
  }

  /** A refused row that is active in paid mode, past its own expiry or bound to an account. */
  predicate Lapses(st: State, m: Mailbox, now: Time) {
    && !st.freeMode && m.status == Active && !Entitled(st, m, now)
    && if m.KeyBound() then PastDue(st, m, now) else m.accountId in st.accounts
  }

  /** The account of the row has to be read, and cannot be. */
  predicate Unread(m: Mailbox, faults: Faults) {
    !m.KeyBound() && Call(AccountRead, 0) in faults
  }

  /**
   * The check passes exactly the entitled. It leaves their row active, with
   * the expiry of the account if it was not active before, unless that write
   * fails, which is no reason to refuse; a refused row is expired and disabled
   * if it lapses, and left alone otherwise.
   */
  lemma ChecksEntitled(st: State, k: nat, now: Time, faults: Faults)
    requires UniqueRows(st.rows) && k < |st.rows|
    ensures var m := st.rows[k];
            var t := ValidateSubscription(st, k, m, now, faults);
            var after := Replay(st, t.effects);
            && (t.ok <==> Entitled(st, m, now) && !Unread(m, faults))
            && (t.ok && m.status == Active ==> after == st)
            && (t.ok && m.status != Active ==>
                  && m.accountId in st.accounts
                  && after == if Call(RowWrite, 0) in faults then st
                              else st.(rows := st.rows[k := m.(status := Active,
                                                               expiresAt := st.accounts[m.accountId])]))
            && (Lapses(st, m, now) && !Unread(m, faults) ==> ExpiredOnSight(st, after, k, faults))
            && (!t.ok && !(Lapses(st, m, now) && !Unread(m, faults)) ==> after == st)
  {
    hide UniqueRows; hide Replay; hide Expire; hide ExpiredOnSight;
    var m := st.rows[k];
    ReplayNothing(st);
    ExpiresRow(st, k, Lapsed, faults);
    if Entitled(st, m, now) && m.status != Active {
      var row := m.(status := Active, expiresAt := st.accounts[m.accountId]);
      UniqueWith(st.rows, k, row);
      ReplayOne(st, Save(k, row, Synced));
    }
  }

  /**
   * An access token gets in exactly when it is entitled and nothing but the
   * write of its row fails, and its login is then enabled. The table changes in
   * two cases: a row that was not active takes the expiry of its account, and a
   * refused row that lapses is expired.
   */
  lemma TokenAccess(st: State, k: nat, accessToken: string, now: Time, faults: Faults)
    requires UniqueRows(st.rows) && Find(st.rows, ByAccessToken(accessToken)) == Some(k)
    ensures var m := st.rows[k];
            var t := ResolveByToken(st, accessToken, now, faults);
            var after := Replay(st, t.effects);
            var seen := Call(Lookup, 0) !in faults && !Unread(m, faults);
            var served := Call(Provision, 1) !in faults;
            && (t.ok <==> seen && Entitled(st, m, now) && served)
            && (seen && Entitled(st, m, now) ==>
                  && (m.status != Active ==> m.accountId in st.accounts)
                  && after == st.(
                       rows := if m.status == Active || Call(RowWrite, 0) in faults then st.rows
                               else st.rows[k := m.(status := Active, expiresAt := st.accounts[m.accountId])],
                       enabled := if served then st.enabled[m.login := true] else st.enabled))
            && (seen && Lapses(st, m, now) ==> ExpiredOnSight(st, after, k, faults))
            && (!(seen && (Entitled(st, m, now) || Lapses(st, m, now))) ==> after == st)
  {
    hide UniqueRows; hide Replay; hide ValidateSubscription; hide Entitled; hide Find; hide ExpiredOnSight;
    var m := st.rows[k];
    ReplayNothing(st);
    ChecksEntitled(st, k, now, faults);
    var check := ValidateSubscription(st, k, m, now, faults);
    assert check.effects + [] == check.effects;
    ReplayConcat(st, check.effects, [Enable(m.login)]);
    ReplayOne(Replay(st, check.effects), Enable(m.login));
  }

  /**
   * A row that a token access brought up to date is let in until the account's
   * subscription ends. From then on it is refused, whatever fails, and expired
   * at the first access, while the row and the account stay as they are.
   */
  lemma SyncedEnds(st: State, k: nat, accessToken: string, now: Time, later: Time, mid: State, faults: Faults)
    requires UniqueRows(st.rows) && Find(st.rows, ByAccessToken(accessToken)) == Some(k)
    requires st.rows[k].status != Active && ResolveByToken(st, accessToken, now, {}).ok
    requires !mid.freeMode && UniqueRows(mid.rows) && k < |mid.rows|
    requires var after := Replay(st, ResolveByToken(st, accessToken, now, {}).effects);
             k < |after.rows| && mid.rows[k] == after.rows[k] && mid.accounts == after.accounts
    ensures var account := st.rows[k].accountId;
            && account in st.accounts && st.accounts[account].Some?
            && var end := st.accounts[account].value;
               && (ResolveByToken(mid, accessToken, later, {}).ok <==> later < end)
               && (later >= end ==>
                     && !ResolveByToken(mid, accessToken, later, faults).ok
                     && ExpiredOnSight(mid, Replay(mid, ResolveByToken(mid, accessToken, later, {}).effects), k, {}))
  {
    hide UniqueRows; hide Replay; hide ResolveByToken; hide Find; hide ExpiredOnSight;
    var m := st.rows[k];
    TokenAccess(st, k, accessToken, now, {});
    var row := m.(status := Active, expiresAt := st.accounts[m.accountId]);
    TokenRow(mid, k, accessToken);
    TokenAccess(mid, k, accessToken, later, {});
    if !Entitled(mid, row, later) {
      RefusedAnyway(mid, k, accessToken, later, faults);
    }
  }

  lemma TokenRow(st: State, k: nat, accessToken: string)
    requires UniqueRows(st.rows) && k < |st.rows| && st.rows[k].accessToken == accessToken
    ensures Find(st.rows, ByAccessToken(accessToken)) == Some(k)
  {
    FindUnique(st.rows, ByAccessToken(accessToken), k);
  }

  /** No failure lets in who is not entitled. */
  lemma RefusedAnyway(st: State, k: nat, accessToken: string, now: Time, faults: Faults)
    requires Find(st.rows, ByAccessToken(accessToken)) == Some(k) && !Entitled(st, st.rows[k], now)
    ensures !ResolveByToken(st, accessToken, now, faults).ok
  {
    hide UniqueRows; hide Find;
  }

  // ---------- paid rows are enabled ----------

  lemma SaveThenEnable(st: State, k: nat, row: Mailbox, why: Why, i: nat, faults: Faults)
    ensures var t := AndThen(Update(st, k, row, why, i, faults), Ensure(row.login, i, faults));
            t.ok ==> k < |st.rows| && t.effects == [Save(k, row, why), Enable(row.login)]
                     && Replay(st, t.effects) == Apply(Apply(st, Save(k, row, why)), Enable(row.login))
  {
    ReplayTwo(st, Save(k, row, why), Enable(row.login));
  }

  // ---------- one charge ----------

  /** The poll passes over the charge: no checkout tag, no ID, or not later than the cursor. */
  predicate PassedOver(m: Mailbox, c: Charge) {
    !("tva-" <= m.session) || c.chargeId == "" || (m.lastChargedAt.Some? && c.at <= m.lastChargedAt.value)
  }

  /** Whose time a charge adds to: a pending account-bound row counts from its account, any other from its own. */
  function PaidUntil(st: State, m: Mailbox): Option<Time> {
    if m.status == PendingPayment && m.accountId != "" then
      (if m.accountId in st.accounts then st.accounts[m.accountId] else None)
    else m.expiresAt
  }

  /** The row after a charge: active and paid, its cursor at the charge, and its time counted from the later instant. */
  function ChargedRow(st: State, m: Mailbox, c: Charge): Mailbox {
    var until := PaidUntil(st, m);
    var base := if until.Some? && until.value > c.at then until.value else c.at;
    var gift := m.status == PendingPayment && m.accountId == "" && m.grantedMonths > 0;
    m.(status := Active, paidAt := Some(c.at), lastChargeId := c.chargeId, lastChargedAt := Some(c.at),
       expiresAt := Some(AddMonths(base, if gift then m.grantedMonths else 1)))
  }

  /** The ports that come before the first write of a charge, in a poll: the rest is not reached if one fails. */
  predicate StopsFirst(st: State, m: Mailbox, i: nat, faults: Faults) {
    || (m.status == PendingPayment && Call(Relookup, i) in faults)
    || (m.status == PendingPayment && m.accountId != "" &&
        (Call(AccountRead, i) in faults || m.accountId !in st.accounts))
    || (m.accountId != "" && Call(AccountWrite, i) in faults)
  }

  /**
   * What paying for row k leaves when it stops where it may: first the account,
   * then the row, then the login.
   */
  ghost predicate PaidUpTo(st: State, after: State, k: nat, row: Mailbox, i: nat, faults: Faults, ok: bool)
    requires k < |st.rows|
  {
    var saved := Call(RowWrite, i) !in faults;
    var served := saved && Call(Provision, i) !in faults;
    && (ok <==> served)
    && after == st.(accounts := if row.accountId != "" && row.accountId in st.accounts
                                then st.accounts[row.accountId := row.expiresAt] else st.accounts,
                    rows := if saved then st.rows[k := row] else st.rows,
                    enabled := if served then st.enabled[row.login := true] else st.enabled)
  }

  /**
   * One charge of a poll, on any row and with any failures. It is passed over,
   * or it stops before it wrote anything, as for a pending row of an unknown
   * account, or it pays for the row.
   */
  lemma ChargeExactly(st: State, k: nat, c: Charge, i: nat, faults: Faults)
    requires UniqueRows(st.rows) && !st.freeMode && k < |st.rows| && st.rows[k].session == c.tag && c.tag != ""
    ensures var m := st.rows[k];
            var t := CreditCharge(st, c, i, faults);
            if Call(Lookup, i) in faults then !t.ok && t.effects == []
            else if PassedOver(m, c) then t == Trace([], true, 0)
            else if StopsFirst(st, m, i, faults) then !t.ok && t.effects == []
            else
              && PaidUpTo(st, Replay(st, t.effects), k, ChargedRow(st, m, c), i, faults, t.ok)
              && (t.ok ==> t.count == 1)
  {
    hide AddMonths; hide UniqueRows; hide Find; hide Replay; hide MarkPaid; hide Renew; hide PaidUpTo;
    var m := st.rows[k];
    FindUnique(st.rows, BySession(c.tag), k);
    UniqueWith(st.rows, k, ChargedRow(st, m, c));
    if !PassedOver(m, c) && m.status == PendingPayment {
      PaymentExactly(st, k, c, i, faults);
    } else if !PassedOver(m, c) {
      RenewalExactly(st, k, c, i, faults);
    }
  }

  lemma PaymentExactly(st: State, k: nat, c: Charge, i: nat, faults: Faults)
    requires !st.freeMode && Find(st.rows, BySession(c.tag)) == Some(k) && st.rows[k].status == PendingPayment
    requires UniqueRows(st.rows[k := ChargedRow(st, st.rows[k], c)])
    ensures var m := st.rows[k];
            var t := MarkPaid(st, c.tag, Some(c), c.at, i, faults);
            if StopsFirst(st, m, i, faults) then !t.ok && t.effects == []
            else PaidUpTo(st, Replay(st, t.effects), k, ChargedRow(st, m, c), i, faults, t.ok)
  {
    hide AddMonths; hide UniqueRows; hide Find; hide Replay; hide AndThen; hide Update; hide Ensure; hide PaidUpTo;
    var m := st.rows[k];
    var row := ChargedRow(st, m, c);
    if m.accountId == "" {
      SavedAndEnabled(st, k, row, Paid(Some(c), Later(c.at, m.expiresAt), MonthsGranted(m)), i, faults);
    } else if m.accountId in st.accounts {
      var base := Later(c.at, st.accounts[m.accountId]);
      ExtendedAndSaved(st, k, row, Paid(Some(c), base, 1), i, faults);
    }
  }

  lemma RenewalExactly(st: State, k: nat, c: Charge, i: nat, faults: Faults)
    requires k < |st.rows| && st.rows[k].status != PendingPayment
    requires UniqueRows(st.rows[k := ChargedRow(st, st.rows[k], c)])
    ensures var m := st.rows[k];
            var t := Renew(st, k, m, c, i, faults);
            if StopsFirst(st, m, i, faults) then !t.ok && t.effects == []
            else
              && PaidUpTo(st, Replay(st, t.effects), k, ChargedRow(st, m, c), i, faults, t.ok)
              && (t.ok ==> t.count == 1)
  {
    hide AddMonths; hide UniqueRows; hide Replay; hide AndThen; hide Update; hide Ensure; hide PaidUpTo;
    var m := st.rows[k];
    var row := ChargedRow(st, m, c);
    var why := Renewed(c, Later(c.at, m.expiresAt));
    RenewCounts(st, k, m, c, i, faults);
    if m.accountId == "" {
      SavedAndEnabled(st, k, row, why, i, faults);
      var rest := AndThen(Update(st, k, row, why, i, faults), Ensure(m.login, i, faults));
      assert [] + rest.effects == rest.effects;
    } else {
      ExtendedAndSaved(st, k, row, why, i, faults);
    }
  }

  lemma SavedAndEnabled(st: State, k: nat, row: Mailbox, why: Why, i: nat, faults: Faults)
    requires k < |st.rows| && UniqueRows(st.rows[k := row])
    ensures var t := AndThen(Update(st, k, row, why, i, faults), Ensure(row.login, i, faults));
            var saved := Call(RowWrite, i) !in faults;
            var served := saved && Call(Provision, i) !in faults;
            && (t.ok <==> served)
            && Replay(st, t.effects) == st.(rows := if saved then st.rows[k := row] else st.rows,
                                            enabled := if served then st.enabled[row.login := true] else st.enabled)
            && (row.accountId == "" ==> PaidUpTo(st, Replay(st, t.effects), k, row, i, faults, t.ok))
  {
    hide UniqueRows; hide Replay;
    var e, f := Save(k, row, why), Enable(row.login);
    assert [e] + [f] == [e, f] && [e] + [] == [e];
    ReplayNothing(st);
    ReplayOne(st, e);
    ReplayTwo(st, e, f);
  }

  lemma ExtendedAndSaved(st: State, k: nat, row: Mailbox, why: Why, i: nat, faults: Faults)
    requires k < |st.rows| && UniqueRows(st.rows[k := row]) && row.accountId != "" && row.expiresAt.Some?
    ensures var t := Then([Extend(row.accountId, row.expiresAt.value)],
                          AndThen(Update(st, k, row, why, i, faults), Ensure(row.login, i, faults)));
            PaidUpTo(st, Replay(st, t.effects), k, row, i, faults, t.ok)
  {
    hide UniqueRows; hide Ensure; hide AndThen; hide Replay;
    var e := Extend(row.accountId, row.expiresAt.value);
    var rest := AndThen(Update(st, k, row, why, i, faults), Ensure(row.login, i, faults));
    ReplayOne(st, e);
    ReplayConcat(st, [e], rest.effects);
    SavedAndEnabled(Apply(st, e), k, row, why, i, faults);
  }

  /** No pending row is bound to an unknown account. */
  ghost predicate AccountsKnown(st: State) {
    forall k :: 0 <= k < |st.rows| && st.rows[k].status == PendingPayment && st.rows[k].accountId != "" ==>
      st.rows[k].accountId in st.accounts
  }

  lemma PaidKeepsKnown(st: State, after: State, k: nat, row: Mailbox, i: nat, faults: Faults, ok: bool)
    requires AccountsKnown(st) && k < |st.rows| && row.status == Active && PaidUpTo(st, after, k, row, i, faults, ok)
    ensures AccountsKnown(after)
  {
  }

  /** A poll that meets no failure succeeds, if the accounts of all pending rows are known. */
  lemma {:induction false} PollSucceeds(st: State, feed: seq<Charge>, n: nat)
    requires Consistent(st) && !st.freeMode && AccountsKnown(st) && n <= |feed|
    ensures var t := PollPrefix(st, feed, n, {});
            t.ok && AccountsKnown(Replay(st, t.effects))
    ensures n == |feed| ==> Poll(st, Some(feed), {}).ok
  {
    hide CreditCharge; hide Consistent; hide UniqueRows; hide AccountsKnown; hide Replay;
    if n == 0 {
      ReplayNothing(st);
    } else {
      PollSucceeds(st, feed, n - 1);
      var before := PollPrefix(st, feed, n - 1, {});
      var mid := Replay(st, before.effects);
      PollPrefixLegal(st, feed, n - 1, {});
      RunKeepsConsistent(st, before.effects);
      ConsistentUnique(mid);
      ModeKept(st, before.effects);
      var c := feed[n - 1];
      ReplayConcat(st, before.effects, CreditCharge(mid, c, n - 1, {}).effects);
      ChargeSucceeds(mid, c, n - 1);
    }
  }

  lemma ChargeSucceeds(st: State, c: Charge, i: nat)
    requires UniqueRows(st.rows) && !st.freeMode && AccountsKnown(st)
    ensures var t := CreditCharge(st, c, i, {});
            t.ok && AccountsKnown(Replay(st, t.effects))
  {
    hide UniqueRows; hide Replay; hide PaidUpTo; hide AddMonths; hide Find; hide MarkPaid; hide Renew;
    ReplayNothing(st);
    var found := Find(st.rows, BySession(c.tag));
    if found.Some? && c.tag != "" {
      var k := found.value;
      ChargeExactly(st, k, c, i, {});
      var t := CreditCharge(st, c, i, {});
      if !PassedOver(st.rows[k], c) {
        PaidSucceeds(st, Replay(st, t.effects), k, ChargedRow(st, st.rows[k], c), i, t.ok);
        PaidKeepsKnown(st, Replay(st, t.effects), k, ChargedRow(st, st.rows[k], c), i, {}, t.ok);
      }
    }
  }

  lemma PaidSucceeds(st: State, after: State, k: nat, row: Mailbox, i: nat, ok: bool)
    requires k < |st.rows| && PaidUpTo(st, after, k, row, i, {}, ok)
    ensures ok
  {
  }

  // ---------- charged rows are enabled ----------

  /** The row took the charge, is active, and its login was enabled last. */
  ghost predicate Credits(st: State, after: State, k: nat, c: Charge) {
    && k < |st.rows| == |after.rows|
    && after.rows == st.rows[k := after.rows[k]]
    && after.rows[k].status == Active && after.rows[k].paidAt == Some(c.at) && After(after.rows[k].expiresAt, c.at)
    && after.rows[k].login == st.rows[k].login
    && after.enabled == st.enabled[st.rows[k].login := true]
  }

  lemma CreditEnables(st: State, k: nat, c: Charge, i: nat, faults: Faults)
    requires !st.freeMode && Find(st.rows, BySession(c.tag)) == Some(k) && !Settled(st.rows[k], c)
    ensures var t := CreditCharge(st, c, i, faults);
            t.ok ==> Credits(st, Replay(st, t.effects), k, c)
  {
    hide MarkPaid; hide Renew; hide Credits; hide Settled; hide Find;
    if st.rows[k].status == PendingPayment {
      PaymentEnables(st, k, c, i, faults);
    } else {
      RenewalEnables(st, k, c, i, faults);
    }
  }

  lemma PaymentEnables(st: State, k: nat, c: Charge, i: nat, faults: Faults)
    requires !st.freeMode && Find(st.rows, BySession(c.tag)) == Some(k) && st.rows[k].status == PendingPayment
    ensures var t := MarkPaid(st, c.tag, Some(c), c.at, i, faults);
            t.ok ==> Credits(st, Replay(st, t.effects), k, c)
  {
    hide AddMonths; hide UniqueRows; hide Update; hide Ensure; hide Find; hide Credits; hide AndThen; hide Replay;
    var m := st.rows[k];
    if m.KeyBound() {
      var months := MonthsGranted(m);
      AddMonthsSpan(Later(c.at, m.expiresAt), months);
      CreditAlone(st, k, Credited(WithCursor(m, Some(c)), c.at, months),
                  Paid(Some(c), Later(c.at, m.expiresAt), months), c, i, faults);
    } else if m.accountId in st.accounts {
      var base := Later(c.at, st.accounts[m.accountId]);
      AddMonthsSpan(base, 1);
      var row := WithCursor(m, Some(c)).(status := Active, paidAt := Some(c.at), expiresAt := Some(AddMonths(base, 1)));
      ExtendThenCredit(st, AddMonths(base, 1), k, row, Paid(Some(c), base, 1), c, i, faults);
    }
  }

  lemma RenewalEnables(st: State, k: nat, c: Charge, i: nat, faults: Faults)
    requires k < |st.rows|
    ensures var t := Renew(st, k, st.rows[k], c, i, faults);
            t.ok ==> Credits(st, Replay(st, t.effects), k, c)
  {
    hide AddMonths; hide UniqueRows; hide Update; hide Ensure; hide Credits; hide AndThen; hide Replay;
    var m := st.rows[k];
    var base := Later(c.at, m.expiresAt);
    AddMonthsSpan(base, 1);
    var row := Credited(WithCursor(m, Some(c)), c.at, 1);
    if m.KeyBound() {
      CreditAlone(st, k, row, Renewed(c, base), c, i, faults);
      var rest := AndThen(Update(st, k, row, Renewed(c, base), i, faults), Ensure(m.login, i, faults));
      assert [] + rest.effects == rest.effects;
    } else {
      ExtendThenCredit(st, AddMonths(base, 1), k, row, Renewed(c, base), c, i, faults);
    }
  }

  lemma CreditAlone(st: State, k: nat, row: Mailbox, why: Why, c: Charge, i: nat, faults: Faults)
    requires k < |st.rows| && row.login == st.rows[k].login
    requires row.status == Active && row.paidAt == Some(c.at) && After(row.expiresAt, c.at)
    ensures var t := AndThen(Update(st, k, row, why, i, faults), Ensure(row.login, i, faults));
            t.ok ==> Credits(st, Replay(st, t.effects), k, c)
  {
    SaveThenEnable(st, k, row, why, i, faults);
  }

  lemma ExtendThenCredit(st: State, until: Time, k: nat, row: Mailbox, why: Why, c: Charge, i: nat, faults: Faults)
    requires k < |st.rows| && row.login == st.rows[k].login
    requires row.status == Active && row.paidAt == Some(c.at) && After(row.expiresAt, c.at)
    ensures var e := Extend(st.rows[k].accountId, until);
            var t := Then([e], AndThen(Update(st, k, row, why, i, faults), Ensure(row.login, i, faults)));
            t.ok ==> Credits(st, Replay(st, t.effects), k, c)
  {
    hide UniqueRows; hide Ensure; hide AndThen; hide Replay;
    var e := Extend(st.rows[k].accountId, until);
    var rest := AndThen(Update(st, k, row, why, i, faults), Ensure(row.login, i, faults));
    ReplayOne(st, e);
    ReplayConcat(st, [e], rest.effects);
    SaveThenEnable(Apply(st, e), k, row, why, i, faults);
  }

  /** Rows keep their logins, no login is disabled, and changed rows are active and enabled. */
  ghost predicate PaidFor(st: State, after: State) {
    && |after.rows| == |st.rows| && after.freeMode == st.freeMode
    && (forall login :: IsEnabled(st, login) ==> IsEnabled(after, login))
    && forall k :: 0 <= k < |st.rows| ==>
         && after.rows[k].login == st.rows[k].login
         && (after.rows[k] != st.rows[k] ==> after.rows[k].status == Active && IsEnabled(after, after.rows[k].login))
  }

  lemma {:induction false} PollPaysFor(st: State, charges: seq<Charge>, n: nat, faults: Faults)
    requires !st.freeMode && n <= |charges| && PollPrefix(st, charges, n, faults).ok
    ensures PaidFor(st, Replay(st, PollPrefix(st, charges, n, faults).effects))
  {
    hide CreditCharge; hide PaidFor; hide Replay;
    if n == 0 {
      ReplayNothing(st);
      PaidNothing(st);
    } else {
      PollPaysFor(st, charges, n - 1, faults);
      var before := PollPrefix(st, charges, n - 1, faults);
      var mid := Replay(st, before.effects);
      var c := charges[n - 1];
      var step := CreditCharge(mid, c, n - 1, faults);
      PollQuiet(st, charges, n - 1, faults);
      ModeKept(st, before.effects);
      CreditQuiet(mid, c, n - 1, faults);
      ModeKept(mid, step.effects);
      ReplayConcat(st, before.effects, step.effects);
      var found := Find(mid.rows, BySession(c.tag));
      if found.None? || Settled(mid.rows[found.value], c) {
        CreditIdle(mid, c, n - 1, faults);
        ReplayNothing(mid);
      } else {
        CreditEnables(mid, found.value, c, n - 1, faults);
        PaidMore(st, mid, Replay(mid, step.effects), found.value, c);
      }
    }
  }

  lemma PaidNothing(st: State)
    ensures PaidFor(st, st)
  {
  }

  lemma PaidMore(st: State, mid: State, after: State, k: nat, c: Charge)
    requires PaidFor(st, mid) && Credits(mid, after, k, c) && after.freeMode == mid.freeMode
    ensures PaidFor(st, after)
  {
  }

  /** After a successful poll every row it changed is active and its login enabled. */
  lemma PollLeavesPaidEnabled(st: State, feed: seq<Charge>, faults: Faults)
    requires !st.freeMode && Poll(st, Some(feed), faults).ok
    ensures PaidFor(st, Replay(st, Poll(st, Some(feed), faults).effects))
  {
    PollPaysFor(st, feed, |feed|, faults);
  }

  /**
   * A failed poll is another matter. When the row was written but the login
   * could not be enabled, the cursor is past the charge: polling again leaves
   * the login as it was. The next access with the key enables it.
   */
  lemma FailedProvisionStays(st: State, k: nat, c: Charge, again: Faults, now: Time)
    requires UniqueRows(st.rows) && !st.freeMode && k < |st.rows| && st.rows[k].KeyBound()
    requires st.rows[k].fingerprint != ""
    requires st.rows[k].session == c.tag && !Settled(st.rows[k], c)
    ensures var failed := Poll(st, Some([c]), {Call(Provision, 0)});
            var mid := Replay(st, failed.effects);
            var row := CreditRow(st.rows[k], c);
            && !failed.ok && mid.rows == st.rows[k := row] && mid.enabled == st.enabled
            && Poll(mid, Some([c]), again).effects == []
            && (now < row.expiresAt.value ==>
                  var access := ResolveByKey(mid, row.fingerprint, now, {});
                  access.ok && IsEnabled(Replay(mid, access.effects), row.login))
  {
    assert c.tag != "";
    hide AddMonths; hide UniqueRows; hide CreditCharge; hide Settled; hide CreditRow; hide Find; hide Replay;
    hide ResolveByKey; hide PollPrefix;
    var m := st.rows[k];
    var row := CreditRow(m, c);
    var faults := {Call(Provision, 0)};
    FindUnique(st.rows, BySession(c.tag), k);
    StoppedBeforeEnabling(st, k, c);
    var failed := Poll(st, Some([c]), faults);
    PollOfOne(st, c, faults);
    var mid := Replay(st, failed.effects);
    FindUnique(mid.rows, BySession(c.tag), k);
    PollIdle(mid, [c], 1, again);
    if now < row.expiresAt.value {
      KeyGetsIn(mid, k, row.fingerprint, now);
    }
  }

  lemma KeyGetsIn(st: State, k: nat, fingerprint: string, now: Time)
    requires KeyHolder(st, k, fingerprint) && Usable(st.rows[k], now)
    ensures var access := ResolveByKey(st, fingerprint, now, {});
            access.ok && IsEnabled(Replay(st, access.effects), st.rows[k].login)
  {
    hide UniqueRows; hide ResolveByKey; hide Replay;
    KeyAccess(st, k, fingerprint, now, {});
  }

  lemma StoppedBeforeEnabling(st: State, k: nat, c: Charge)
    requires UniqueRows(st.rows) && !st.freeMode && k < |st.rows| && st.rows[k].KeyBound()
    requires Find(st.rows, BySession(c.tag)) == Some(k) && !Settled(st.rows[k], c)
    ensures var t := CreditCharge(st, c, 0, {Call(Provision, 0)});
            var row := CreditRow(st.rows[k], c);
            && !t.ok && Replay(st, t.effects) == st.(rows := st.rows[k := row])
            && UniqueRows(st.rows[k := row])
            && row.session == st.rows[k].session && row.fingerprint == st.rows[k].fingerprint
            && Settled(row, c) && row.paidAt.Some? && row.status == Active && row.expiresAt.Some?
  {
    hide AddMonths; hide UniqueRows; hide Update; hide Ensure; hide AndThen; hide Replay; hide Find;
    var m := st.rows[k];
    var row := CreditRow(m, c);
    var faults := {Call(Provision, 0)};
    UniqueWith(st.rows, k, row);
    var base := Later(c.at, m.expiresAt);
    if m.status == PendingPayment {
      var why := Paid(Some(c), base, MonthsGranted(m));
      SaveOnly(st, k, row, why, faults);
      assert CreditCharge(st, c, 0, faults).effects == [Save(k, row, why)];
    } else {
      SaveOnly(st, k, row, Renewed(c, base), faults);
      assert [] + [Save(k, row, Renewed(c, base))] == [Save(k, row, Renewed(c, base))];
      assert CreditCharge(st, c, 0, faults).effects == [] + [Save(k, row, Renewed(c, base))];
    }
  }

  lemma SaveOnly(st: State, k: nat, row: Mailbox, why: Why, faults: Faults)
    requires k < |st.rows| && UniqueRows(st.rows[k := row]) && faults == {Call(Provision, 0)}
    ensures AndThen(Update(st, k, row, why, 0, faults), Ensure(row.login, 0, faults))
        == Trace([Save(k, row, why)], false, 0)
    ensures Replay(st, [Save(k, row, why)]) == st.(rows := st.rows[k := row])
  {
    hide UniqueRows;
    assert [Save(k, row, why)] + [] == [Save(k, row, why)];
    ReplayOne(st, Save(k, row, why));
  }
}
