/**
 * Every write of every service call is one of a few legal kinds.
 *
 * `Legal` says what a single write may do to the state it meets. `ExecLegal`
 * shows that all calls, with any faults, perform legal writes only. The
 * invariants of the other modules are then kept write by write, so they hold
 * in the middle of calls as well.
 */
module Legality {
  import opened Calendar
  import opened Domain
  import opened Lifecycle
  import opened PollSteps

  /** What the calls rely on: the unique indexes, and that a session is stored together with its URL. */
  ghost predicate Consistent(st: State) {
    && UniqueRows(st.rows)
    && forall k :: 0 <= k < |st.rows| && st.rows[k].session != "" ==> st.rows[k].paymentUrl != ""
  }

  lemma ConsistentUnique(st: State)
    requires Consistent(st)
    ensures UniqueRows(st.rows)
  {
  }

  ghost predicate IsEnabled(st: State, login: string) {
    login in st.enabled && st.enabled[login]
  }

  /** Active, paid for and without an expiry: what an activation link grants. */
  predicate Unlimited(m: Mailbox) {
    m.status == Active && m.paidAt.Some? && m.expiresAt.None?
  }

  ghost predicate SameOwner(m: Mailbox, row: Mailbox) {
    row.id == m.id && row.accountId == m.accountId && row.login == m.login && row.accessToken == m.accessToken
  }

  ghost predicate LegalPaid(m: Mailbox, row: Mailbox, charge: Option<Charge>, base: Time, months: int) {
    && m.status != Active && row.status == Active && row.paidAt.Some?
    && (charge.Some? ==> m.status == PendingPayment && !Settled(m, charge.value) && row.paidAt == Some(charge.value.at))
    && (m.KeyBound() ==>
          && months == MonthsGranted(m)
          && base == Later(row.paidAt.value, m.expiresAt)
          && row == Credited(WithCursor(m, charge), row.paidAt.value, months))
    && (!m.KeyBound() ==>
          && months == 1
          && row.expiresAt == Some(AddMonths(base, 1))
          && row == WithCursor(m, charge).(status := Active, paidAt := row.paidAt, expiresAt := row.expiresAt))
  }

  ghost predicate LegalPriced(cfg: Config, m: Mailbox, row: Mailbox, now: Time) {
    && !Usable(m, now)
    && row == m.(session := row.session, paymentUrl := row.paymentUrl, status := PendingPayment,
                 grantedMonths := row.grantedMonths, couponUsed := row.couponUsed)
    && row.session != "" && row.paymentUrl != ""
    && (cfg.openCollective ==> row.session == CheckoutTag(m.id))
    && (|| (row.grantedMonths == 0 && row.couponUsed == m.couponUsed)
        || (row.grantedMonths == GIFT_MONTHS && !m.couponUsed && row.couponUsed))
  }

  ghost predicate LegalSave(st: State, m: Mailbox, row: Mailbox, why: Why) {
    match why
    case Paid(charge, base, months) => !st.freeMode && LegalPaid(m, row, charge, base, months)
    case Renewed(c, base) =>
      && !st.freeMode && m.status != PendingPayment && !Settled(m, c)
      && base == Later(c.at, m.expiresAt)
      && row == Credited(WithCursor(m, Some(c)), c.at, 1)
    case Priced(now) => !st.freeMode && LegalPriced(st.cfg, m, row, now)
    case Tokened(now) =>
      && st.freeMode && (m.status == PendingPayment || !Usable(m, now))
      && row.tokenHash != "" && row == WithToken(m, row.tokenHash, now)
    case Activated(now) =>
      && m.status == PendingPayment && m.tokenHash != "" && After(m.tokenExpiresAt, now)
      && row == m.(status := Active, paidAt := Some(now), expiresAt := None)
    case Lapsed =>
      !st.freeMode && m.status == Active && !Unlimited(m) && !IsEnabled(st, m.login) && row == m.(status := Expired)
    case Synced =>
      && !st.freeMode && !m.KeyBound() && m.status != Active
      && row == m.(status := Active, expiresAt := row.expiresAt)
    case Admin =>
      && row == m.(fingerprint := row.fingerprint, status := row.status, paidAt := row.paidAt,
                   expiresAt := row.expiresAt)
      && (row.status == Active || (row.status == Expired && !IsEnabled(st, m.login)))
  }

  ghost predicate LegalInsert(st: State, row: Mailbox, byAdmin: bool) {
    && row.status != Expired
    && row.lastChargedAt.None?
    && (row.status == Active && row.KeyBound() ==> byAdmin)
    && (row.status == PendingPayment ==> row.paidAt.None? && row.expiresAt.None?)
    && (row.session != "" ==> row.paymentUrl != "" && (st.cfg.openCollective ==> row.session == CheckoutTag(row.id)))
    && (row.session == "" ==> st.freeMode || row.status == Active)
    && (row.grantedMonths == 0 || (row.grantedMonths == GIFT_MONTHS && row.couponUsed))
  }

  ghost predicate Legal(st: State, e: Effect) {
    match e
    case Insert(row, byAdmin) => UniqueRows(st.rows + [row]) && LegalInsert(st, row, byAdmin)
    case Save(k, row, why) =>
      && k < |st.rows| && UniqueRows(st.rows[k := row])
      && SameOwner(st.rows[k], row)
      && LegalSave(st, st.rows[k], row, why)
    case Enable(login) =>
      forall k :: 0 <= k < |st.rows| && st.rows[k].login == login && st.rows[k].KeyBound() ==>
          st.rows[k].status != Expired
    case Polled(at) => st.cfg.openCollective && at - st.lastClaimPoll >= CLAIM_POLL_COOLDOWN
    case _ => true
  }

  ghost predicate LegalRun(st: State, effects: seq<Effect>)
    decreases |effects|
  {
    effects == []
    || (var n := |effects| - 1; LegalRun(st, effects[..n]) && Legal(Replay(st, effects[..n]), effects[n]))
  }

  lemma {:induction false} LegalConcat(st: State, a: seq<Effect>, b: seq<Effect>)
    requires LegalRun(st, a) && LegalRun(Replay(st, a), b)
    ensures LegalRun(st, a + b)
    decreases |b|
  {
    hide Legal; hide Apply;
    if b == [] {
      assert a + b == a;
    } else {
      var n := |b| - 1;
      assert (a + b)[..|a + b| - 1] == a + b[..n];
      LegalConcat(st, a, b[..n]);
      ReplayConcat(st, a, b[..n]);
    }
  }

  lemma LegalOne(st: State, e: Effect)
    requires Legal(st, e)
    ensures LegalRun(st, [e])
  {
    assert [e][..0] == [];
  }

  lemma LegalNothing(st: State)
    ensures LegalRun(st, [])
  {
  }

  /** A legal write keeps the table consistent. */
  lemma LegalKeepsConsistent(st: State, e: Effect)
    requires Consistent(st) && Legal(st, e)
    ensures Consistent(Apply(st, e))
  {
    hide AddMonths;
    match e
    case Save(k, row, why) =>
      hide Distinct;
      SaveKeepsLinks(st, st.rows[k], row, why);
    case ClearExpiries =>
      var cleared := ClearedExpiries(st.rows);
      forall i, j | 0 <= i < |cleared| && 0 <= j < |cleared| && i != j
        ensures Distinct(cleared[i], cleared[j])
      {
        assert Distinct(st.rows[i], st.rows[j]);
      }
    case _ =>
  }

  lemma SaveKeepsLinks(st: State, m: Mailbox, row: Mailbox, why: Why)
    requires LegalSave(st, m, row, why) && (m.session != "" ==> m.paymentUrl != "")
    ensures row.session != "" ==> row.paymentUrl != ""
  {
    hide AddMonths;
  }

  lemma {:induction false} RunKeepsConsistent(st: State, effects: seq<Effect>)
    requires Consistent(st) && LegalRun(st, effects)
    ensures Consistent(Replay(st, effects))
    decreases |effects|
  {
    if effects != [] {
      var n := |effects| - 1;
      RunKeepsConsistent(st, effects[..n]);
      LegalKeepsConsistent(Replay(st, effects[..n]), effects[n]);
    }
  }

  /** A write that keeps the unique columns keeps the unique indexes. */
  lemma UniqueWith(rows: seq<Mailbox>, k: nat, row: Mailbox)
    requires UniqueRows(rows) && k < |rows|
    requires SameOwner(rows[k], row) && row.fingerprint == rows[k].fingerprint && row.session == rows[k].session
    ensures UniqueRows(rows[k := row])
  {
    var after := rows[k := row];
    forall i, j | 0 <= i < |after| && 0 <= j < |after| && i != j
      ensures Distinct(after[i], after[j])
    {
      assert Distinct(rows[i], rows[j]);
    }
  }

  /** Dropping a session keeps the unique indexes. */
  lemma UniqueWithout(rows: seq<Mailbox>, k: nat, row: Mailbox)
    requires UniqueRows(rows) && k < |rows|
    requires SameOwner(rows[k], row) && row.fingerprint == rows[k].fingerprint && row.session == ""
    ensures UniqueRows(rows[k := row])
  {
    var after := rows[k := row];
    forall i, j | 0 <= i < |after| && 0 <= j < |after| && i != j
      ensures Distinct(after[i], after[j])
    {
      assert Distinct(rows[i], rows[j]);
    }
  }

  // ---------- the calls ----------

  lemma EnsureLegal(st: State, k: nat, i: nat, faults: Faults)
    requires UniqueRows(st.rows)
    requires k < |st.rows| && (st.rows[k].status == Active || !st.rows[k].KeyBound())
    ensures LegalRun(st, Ensure(st.rows[k].login, i, faults).effects)
  {
    forall j | 0 <= j < |st.rows| && st.rows[j].login == st.rows[k].login
      ensures j == k
    {
      assert !Distinct(st.rows[j], st.rows[k]);
    }
    LegalOne(st, Enable(st.rows[k].login));
  }

  lemma UpdateLegal(st: State, k: nat, row: Mailbox, why: Why, i: nat, faults: Faults)
    requires k < |st.rows| && SameOwner(st.rows[k], row) && LegalSave(st, st.rows[k], row, why)
    ensures LegalRun(st, Update(st, k, row, why, i, faults).effects)
  {
    if Update(st, k, row, why, i, faults).ok {
      LegalOne(st, Save(k, row, why));
    }
  }

  lemma UpdateEnsureLegal(st: State, k: nat, row: Mailbox, why: Why, i: nat, faults: Faults)
    requires k < |st.rows| && SameOwner(st.rows[k], row) && LegalSave(st, st.rows[k], row, why)
    requires row.status == Active
    ensures LegalRun(st, AndThen(Update(st, k, row, why, i, faults), Ensure(row.login, i, faults)).effects)
  {
    var first := Update(st, k, row, why, i, faults);
    UpdateLegal(st, k, row, why, i, faults);
    if first.ok {
      ReplayOne(st, Save(k, row, why));
      EnsureLegal(Replay(st, first.effects), k, i, faults);
      LegalConcat(st, first.effects, Ensure(row.login, i, faults).effects);
    }
  }

  /** What the poll, and the webhook, do with a payment for a session. */
  lemma MarkPaidLegal(st: State, session: string, charge: Option<Charge>, now: Time, i: nat, faults: Faults)
    requires Consistent(st)
    requires charge.Some? ==>
      var found := Find(st.rows, BySession(session));
      found.Some? && st.rows[found.value].status == PendingPayment && !Settled(st.rows[found.value], charge.value)
    ensures LegalRun(st, MarkPaid(st, session, charge, now, i, faults).effects)
  {
    hide AddMonths; hide UniqueRows; hide Find; hide LegalRun;
    LegalNothing(st);
    var found := Find(st.rows, BySession(session));
    if found.Some? {
      var m := st.rows[found.value];
      var paidAt := if charge.Some? then charge.value.at else now;
      if m.status == Active {
        EnsureLegal(st, found.value, i, faults);
      } else if m.KeyBound() {
        var months := MonthsGranted(m);
        var row := Credited(WithCursor(m, charge), paidAt, months);
        if !st.freeMode {
          UpdateEnsureLegal(st, found.value, row, Paid(charge, Later(paidAt, m.expiresAt), months), i, faults);
        }
      } else if m.accountId in st.accounts {
        var base := Later(paidAt, st.accounts[m.accountId]);
        var row := WithCursor(m, charge).(status := Active, paidAt := Some(paidAt),
                                          expiresAt := Some(AddMonths(base, 1)));
        ExtendThenLegal(st, found.value, AddMonths(base, 1), row, Paid(charge, base, 1), i, faults);
      }
    }
  }

  lemma ExtendThenLegal(st: State, k: nat, until: Time, row: Mailbox, why: Why, i: nat, faults: Faults)
    requires k < |st.rows| && SameOwner(st.rows[k], row) && row.status == Active
    requires !st.freeMode ==> LegalSave(st, st.rows[k], row, why)
    requires why.Paid? || why.Renewed?
    ensures !st.freeMode ==>
      LegalRun(st, Then([Extend(row.accountId, until)],
                        AndThen(Update(st, k, row, why, i, faults), Ensure(row.login, i, faults))).effects)
  {
    if !st.freeMode {
      var e := Extend(row.accountId, until);
      var mid := Apply(st, e);
      ReplayOne(st, e);
      LegalOne(st, e);
      assert Update(st, k, row, why, i, faults) == Update(mid, k, row, why, i, faults);
      UpdateEnsureLegal(mid, k, row, why, i, faults);
      LegalConcat(st, [e], AndThen(Update(mid, k, row, why, i, faults), Ensure(row.login, i, faults)).effects);
    }
  }

  lemma CreditChargeLegal(st: State, c: Charge, i: nat, faults: Faults)
    requires Consistent(st) && !st.freeMode
    ensures LegalRun(st, CreditCharge(st, c, i, faults).effects)
  {
    var found := Find(st.rows, BySession(c.tag));
    if found.Some? && !Settled(st.rows[found.value], c) {
      var k := found.value;
      var m := st.rows[k];
      if m.status == PendingPayment {
        MarkPaidLegal(st, c.tag, Some(c), c.at, i, faults);
      } else {
        var base := Later(c.at, m.expiresAt);
        var row := Credited(WithCursor(m, Some(c)), c.at, 1);
        if m.KeyBound() {
          UpdateEnsureLegal(st, k, row, Renewed(c, base), i, faults);
          var rest := AndThen(Update(st, k, row, Renewed(c, base), i, faults), Ensure(m.login, i, faults));
          assert [] + rest.effects == rest.effects;
        } else {
          ExtendThenLegal(st, k, AddMonths(base, 1), row, Renewed(c, base), i, faults);
        }
      }
    }
  }

  /** No switch of the mode. */
  ghost predicate Quiet(effects: seq<Effect>) {
    forall e :: e in effects ==> !e.SwitchMode?
  }

  /** Only SwitchMode changes the mode, and no write changes the settings. */
  lemma {:induction false} ModeKept(st: State, effects: seq<Effect>)
    requires Quiet(effects)
    ensures Replay(st, effects).freeMode == st.freeMode && Replay(st, effects).cfg == st.cfg
    decreases |effects|
  {
    if effects != [] {
      ModeKept(st, effects[..|effects| - 1]);
    }
  }

  lemma MarkPaidQuiet(st: State, session: string, charge: Option<Charge>, now: Time, i: nat, faults: Faults)
    ensures Quiet(MarkPaid(st, session, charge, now, i, faults).effects)
  {
  }

  lemma CreditQuiet(st: State, c: Charge, i: nat, faults: Faults)
    ensures Quiet(CreditCharge(st, c, i, faults).effects)
  {
    hide MarkPaid;
    MarkPaidQuiet(st, c.tag, Some(c), c.at, i, faults);
  }

  lemma {:induction false} PollPrefixLegal(st: State, charges: seq<Charge>, n: nat, faults: Faults)
    requires Consistent(st) && !st.freeMode && n <= |charges|
    ensures LegalRun(st, PollPrefix(st, charges, n, faults).effects)
    ensures Quiet(PollPrefix(st, charges, n, faults).effects)
  {
    hide CreditCharge; hide Legal; hide UniqueRows; hide Apply;
    if n > 0 {
      PollPrefixLegal(st, charges, n - 1, faults);
      var before := PollPrefix(st, charges, n - 1, faults);
      if before.ok {
        var mid := Replay(st, before.effects);
        var step := CreditCharge(mid, charges[n - 1], n - 1, faults);
        ModeKept(st, before.effects);
        RunKeepsConsistent(st, before.effects);
        CreditChargeLegal(mid, charges[n - 1], n - 1, faults);
        CreditQuiet(mid, charges[n - 1], n - 1, faults);
        LegalConcat(st, before.effects, step.effects);
      }
    }
  }

  lemma PollLegal(st: State, feed: Option<seq<Charge>>, faults: Faults)
    requires Consistent(st)
    ensures LegalRun(st, Poll(st, feed, faults).effects) && Quiet(Poll(st, feed, faults).effects)
  {
    if !st.freeMode && feed.Some? {
      PollPrefixLegal(st, feed.value, |feed.value|, faults);
    }
  }

  lemma {:induction false} PendingPrefixLegal(st: State, listed: seq<nat>, n: nat, now: Time,
                                              replies: map<string, SessionReply>, faults: Faults)
    requires Consistent(st) && n <= |listed|
    requires forall i :: 0 <= i < |listed| ==> listed[i] < |st.rows|
    ensures LegalRun(st, PendingPrefix(st, listed, n, now, replies, faults).effects)
  {
    hide MarkPaid;
    if n > 0 {
      PendingPrefixLegal(st, listed, n - 1, now, replies, faults);
      var before := PendingPrefix(st, listed, n - 1, now, replies, faults);
      var mid := Replay(st, before.effects);
      var session := st.rows[listed[n - 1]].session;
      RunKeepsConsistent(st, before.effects);
      MarkPaidLegal(mid, session, None, now, n - 1, faults);
      LegalConcat(st, before.effects, MarkPaid(mid, session, None, now, n - 1, faults).effects);
    }
  }

  lemma ExpireLegal(st: State, k: nat, why: Why, i: nat, faults: Faults)
    requires k < |st.rows|
    requires why == Admin || (why == Lapsed && !st.freeMode && st.rows[k].status == Active && !Unlimited(st.rows[k]))
    ensures LegalRun(st, Expire(st, k, st.rows[k], why, i, faults).effects)
  {
    var m := st.rows[k];
    var e := Disable(m.login);
    if Call(Provision, i) !in faults {
      LegalOne(st, e);
      ReplayOne(st, e);
      var mid := Apply(st, e);
      assert Update(st, k, m.(status := Expired), why, i, faults)
        == Update(mid, k, m.(status := Expired), why, i, faults);
      UpdateLegal(mid, k, m.(status := Expired), why, i, faults);
      LegalConcat(st, [e], Update(mid, k, m.(status := Expired), why, i, faults).effects);
    }
  }

  /** An expiry changes at most the status of its row, and does so exactly when it succeeds. */
  lemma ExpireRows(st: State, k: nat, m: Mailbox, why: Why, i: nat, faults: Faults)
    requires k < |st.rows|
    ensures var t := Expire(st, k, m, why, i, faults);
            Replay(st, t.effects).rows == if t.ok then st.rows[k := m.(status := Expired)] else st.rows
  {
    hide UniqueRows; hide Replay;
    var e, f := Disable(m.login), Save(k, m.(status := Expired), why);
    var t := Expire(st, k, m, why, i, faults);
    if t.ok {
      assert t.effects == [e, f];
      ReplayTwo(st, e, f);
    } else if t.effects == [] {
      ReplayNothing(st);
    } else {
      assert t.effects == [e];
      ReplayOne(st, e);
    }
  }

  /** The table after the first n due rows have expired. */
  function Swept(rows: seq<Mailbox>, due: seq<nat>, n: nat): (r: seq<Mailbox>)
    requires n <= |due| && forall i :: 0 <= i < |due| ==> due[i] < |rows|
    ensures |r| == |rows|
  {
    if n == 0 then rows else Swept(rows, due, n - 1)[due[n - 1] := rows[due[n - 1]].(status := Expired)]
  }

  lemma {:induction false} SweptRow(rows: seq<Mailbox>, due: seq<nat>, n: nat, k: nat)
    requires n <= |due| && Increasing(due) && forall i :: 0 <= i < |due| ==> due[i] < |rows|
    requires k < |rows|
    ensures Swept(rows, due, n)[k] == if k in due[..n] then rows[k].(status := Expired) else rows[k]
  {
    if n > 0 {
      SweptRow(rows, due, n - 1, k);
      assert due[..n] == due[..n - 1] + [due[n - 1]];
    }
  }

  /** A sweep, stopped or not, has expired exactly the first `count` rows it listed. */
  lemma {:induction false} SweepRows(st: State, due: seq<nat>, n: nat, faults: Faults)
    requires n <= |due|
    requires forall i :: 0 <= i < |due| ==> due[i] < |st.rows|
    ensures var t := SweepPrefix(st, due, n, faults);
            t.count <= n && (t.ok ==> t.count == n) && Replay(st, t.effects).rows == Swept(st.rows, due, t.count)
  {
    hide Expire;
    if n > 0 {
      SweepRows(st, due, n - 1, faults);
      var before := SweepPrefix(st, due, n - 1, faults);
      if before.ok {
        var mid := Replay(st, before.effects);
        var k := due[n - 1];
        var step := Expire(mid, k, st.rows[k], Lapsed, n - 1, faults);
        ExpireRows(mid, k, st.rows[k], Lapsed, n - 1, faults);
        ReplayConcat(st, before.effects, step.effects);
      }
    }
  }

  lemma {:induction false} SweepQuiet(st: State, due: seq<nat>, n: nat, faults: Faults)
    requires n <= |due|
    requires forall i :: 0 <= i < |due| ==> due[i] < |st.rows|
    ensures Quiet(SweepPrefix(st, due, n, faults).effects)
  {
    if n > 0 {
      SweepQuiet(st, due, n - 1, faults);
    }
  }

  lemma {:induction false} SweepPrefixLegal(st: State, due: seq<nat>, n: nat, now: Time, faults: Faults)
    requires Consistent(st) && !st.freeMode && n <= |due| && Increasing(due)
    requires forall i :: 0 <= i < |due| ==> due[i] < |st.rows| && Selected(st.rows[due[i]], ActiveDue(now))
    ensures LegalRun(st, SweepPrefix(st, due, n, faults).effects)
  {
    if n > 0 {
      SweepPrefixLegal(st, due, n - 1, now, faults);
      var before := SweepPrefix(st, due, n - 1, faults);
      if before.ok {
        var mid := Replay(st, before.effects);
        SweepRows(st, due, n - 1, faults);
        SweptRow(st.rows, due, n - 1, due[n - 1]);
        SweepQuiet(st, due, n - 1, faults);
        ModeKept(st, before.effects);
        ExpireLegal(mid, due[n - 1], Lapsed, n - 1, faults);
        LegalConcat(st, before.effects, Expire(mid, due[n - 1], st.rows[due[n - 1]], Lapsed, n - 1, faults).effects);
      }
    }
  }

  lemma {:induction false} DisablePrefixLegal(st: State, listed: seq<nat>, n: nat, faults: Faults)
    requires n <= |listed|
    requires forall i :: 0 <= i < |listed| ==> listed[i] < |st.rows|
    ensures LegalRun(st, DisablePrefix(st, listed, n, faults).effects)
  {
    if n > 0 {
      DisablePrefixLegal(st, listed, n - 1, faults);
      var before := DisablePrefix(st, listed, n - 1, faults);
      var e := Disable(st.rows[listed[n - 1]].login);
      LegalOne(Replay(st, before.effects), e);
      LegalConcat(st, before.effects, [e]);
    }
  }

  lemma UpdateRows(st: State, k: nat, row: Mailbox, why: Why, i: nat, faults: Faults)
    requires k < |st.rows|
    ensures var t := Update(st, k, row, why, i, faults);
            Replay(st, t.effects).rows == if t.ok then st.rows[k := row] else st.rows
  {
    ReplayOne(st, Save(k, row, why));
  }

  /** The table after the first n pending rows listed got the tokens they needed. */
  function WithTokens(rows: seq<Mailbox>, listed: seq<nat>, n: nat, tokens: seq<string>, now: Time): (r: seq<Mailbox>)
    requires n <= |listed| <= |tokens| && forall i :: 0 <= i < |listed| ==> listed[i] < |rows|
    ensures |r| == |rows|
  {
    if n == 0 then rows
    else
      var before := WithTokens(rows, listed, n - 1, tokens, now);
      var m := rows[listed[n - 1]];
      if HasValidToken(m, now) then before else before[listed[n - 1] := WithToken(m, tokens[n - 1], now)]
  }

  /** How many of the first n rows listed need a token. */
  function Needing(rows: seq<Mailbox>, listed: seq<nat>, n: nat, now: Time): nat
    requires n <= |listed| && forall i :: 0 <= i < |listed| ==> listed[i] < |rows|
  {
    if n == 0 then 0
    else Needing(rows, listed, n - 1, now) + (if HasValidToken(rows[listed[n - 1]], now) then 0 else 1)
  }

  lemma {:induction false} TokenedRow(rows: seq<Mailbox>, listed: seq<nat>, n: nat, tokens: seq<string>, now: Time,
                                      k: nat)
    requires n <= |listed| <= |tokens| && Increasing(listed) && forall i :: 0 <= i < |listed| ==> listed[i] < |rows|
    requires k < |rows|
    ensures k !in listed[..n] || HasValidToken(rows[k], now) ==> WithTokens(rows, listed, n, tokens, now)[k] == rows[k]
    ensures forall i :: 0 <= i < n && listed[i] == k && !HasValidToken(rows[k], now) ==>
              WithTokens(rows, listed, n, tokens, now)[k] == WithToken(rows[k], tokens[i], now)
  {
    if n > 0 {
      TokenedRow(rows, listed, n - 1, tokens, now, k);
      assert listed[..n] == listed[..n - 1] + [listed[n - 1]];
    }
  }

  /** A switchover, stopped or not, has converted the rows that needed it among the first p listed. */
  ghost predicate SwitchedUpTo(st: State, t: Trace, listed: seq<nat>, p: nat, tokens: seq<string>, now: Time)
    requires p <= |listed| <= |tokens| && forall i :: 0 <= i < |listed| ==> listed[i] < |st.rows|
  {
    && Replay(st, t.effects).rows == WithTokens(st.rows, listed, p, tokens, now)
    && t.count == Needing(st.rows, listed, p, now)
  }

  lemma {:induction false} SwitchRows(st: State, listed: seq<nat>, n: nat, tokens: seq<string>, now: Time,
                                      faults: Faults)
      returns (p: nat)
    requires n <= |listed| <= |tokens|
    requires forall i :: 0 <= i < |listed| ==> listed[i] < |st.rows|
    ensures p <= n && (SwitchPrefix(st, listed, n, tokens, now, faults).ok ==> p == n)
    ensures SwitchedUpTo(st, SwitchPrefix(st, listed, n, tokens, now, faults), listed, p, tokens, now)
  {
    hide Update; hide WithToken; hide HasValidToken; hide Apply; hide Replay;
    if n == 0 {
      ReplayNothing(st);
      p := 0;
    } else {
      p := SwitchRows(st, listed, n - 1, tokens, now, faults);
      var before := SwitchPrefix(st, listed, n - 1, tokens, now, faults);
      var m := st.rows[listed[n - 1]];
      if before.ok && HasValidToken(m, now) {
        p := n;
      } else if before.ok &&
          !(Call(Token, n - 1) in faults || st.cfg.publicBaseUrl == "" || Call(Mail, n - 1) in faults) {
        var mid := Replay(st, before.effects);
        var row := WithToken(m, tokens[n - 1], now);
        var step := Update(mid, listed[n - 1], row, Tokened(now), n - 1, faults);
        UpdateRows(mid, listed[n - 1], row, Tokened(now), n - 1, faults);
        ReplayConcat(st, before.effects, step.effects);
        p := if step.ok then n else p;
      }
    }
  }
}
