/** What one charge of a poll, and a prefix of a poll, do to the rows of the table. */
module PollSteps {
  import opened Calendar
  import opened Domain
  import opened Lifecycle

  /** A charge on a key-bound row, as a function of the row alone. */
  function CreditRow(m: Mailbox, c: Charge): Mailbox {
    if Settled(m, c) then m
    else Credited(WithCursor(m, Some(c)), c.at, if m.status == PendingPayment then MonthsGranted(m) else 1)
  }

  /** The columns a charge never changes. */
  ghost predicate SameCheckout(m: Mailbox, row: Mailbox) {
    row.id == m.id && row.accountId == m.accountId && row.session == m.session && row.paymentUrl == m.paymentUrl
  }

  /** Row m took charge c and became `row`. */
  ghost predicate Took(m: Mailbox, row: Mailbox, c: Charge) {
    && SameCheckout(m, row)
    && !Settled(m, c) && m.session == c.tag
    && row.lastChargedAt == Some(c.at)
    && (m.KeyBound() ==> row == CreditRow(m, c))
  }

  /** Of all rows only row k changed, by taking charge c. */
  ghost predicate OnlyTook(before: seq<Mailbox>, after: seq<Mailbox>, k: nat, c: Charge) {
    k < |before| && |after| == |before| && after == before[k := after[k]] && Took(before[k], after[k], c)
  }

  /** A write of row k, with what goes before and after it, either failed or is the only change. */
  ghost predicate WroteRow(st: State, t: Trace, k: nat, row: Mailbox) {
    k < |st.rows| &&
    var rows := Replay(st, t.effects).rows;
    (rows == st.rows && !t.ok) || rows == st.rows[k := row]
  }

  lemma TookRow(st: State, t: Trace, k: nat, row: Mailbox, c: Charge)
    requires WroteRow(st, t, k, row) && Took(st.rows[k], row, c)
    ensures var rows := Replay(st, t.effects).rows;
            (rows == st.rows && !t.ok) || OnlyTook(st.rows, rows, k, c)
  {
  }

  lemma MarkPaidRows(st: State, k: nat, c: Charge, i: nat, faults: Faults)
    requires !st.freeMode
    requires Find(st.rows, BySession(c.tag)) == Some(k)
    requires st.rows[k].status == PendingPayment && !Settled(st.rows[k], c)
    ensures var t := MarkPaid(st, c.tag, Some(c), c.at, i, faults);
            var rows := Replay(st, t.effects).rows;
            (rows == st.rows && !t.ok) || OnlyTook(st.rows, rows, k, c)
  {
    var m := st.rows[k];
    var t := MarkPaid(st, c.tag, Some(c), c.at, i, faults);
    if t.effects == [] {
    } else if m.KeyBound() {
      var months := MonthsGranted(m);
      var row := Credited(WithCursor(m, Some(c)), c.at, months);
      UpdateEnsureRows(st, k, row, Paid(Some(c), Later(c.at, m.expiresAt), months), i, faults);
      TookRow(st, t, k, row, c);
    } else {
      var base := Later(c.at, st.accounts[m.accountId]);
      var row := WithCursor(m, Some(c)).(status := Active, paidAt := Some(c.at), expiresAt := Some(AddMonths(base, 1)));
      ExtendUpdateEnsureRows(st, m.accountId, AddMonths(base, 1), k, row, Paid(Some(c), base, 1), i, faults);
      TookRow(st, t, k, row, c);
    }
  }

  lemma RenewRows(st: State, k: nat, c: Charge, i: nat, faults: Faults)
    requires k < |st.rows| && st.rows[k].session == c.tag
    requires st.rows[k].status != PendingPayment && !Settled(st.rows[k], c)
    ensures var t := Renew(st, k, st.rows[k], c, i, faults);
            var rows := Replay(st, t.effects).rows;
            (rows == st.rows && !t.ok) || OnlyTook(st.rows, rows, k, c)
  {
    var m := st.rows[k];
    var t := Renew(st, k, st.rows[k], c, i, faults);
    var base := Later(c.at, m.expiresAt);
    var row := Credited(WithCursor(m, Some(c)), c.at, 1);
    if m.KeyBound() {
      UpdateEnsureRows(st, k, row, Renewed(c, base), i, faults);
      var rest := AndThen(Update(st, k, row, Renewed(c, base), i, faults), Ensure(m.login, i, faults));
      assert [] + rest.effects == rest.effects;
    } else if t.effects != [] {
      ExtendUpdateEnsureRows(st, m.accountId, AddMonths(base, 1), k, row, Renewed(c, base), i, faults);
    }
    if t.effects != [] {
      TookRow(st, t, k, row, c);
    }
  }

  lemma UpdateEnsureRows(st: State, k: nat, row: Mailbox, why: Why, i: nat, faults: Faults)
    requires k < |st.rows|
    ensures WroteRow(st, AndThen(Update(st, k, row, why, i, faults), Ensure(row.login, i, faults)), k, row)
  {
    ReplayOne(st, Save(k, row, why));
    ReplayTwo(st, Save(k, row, why), Enable(row.login));
    var t := AndThen(Update(st, k, row, why, i, faults), Ensure(row.login, i, faults));
    assert t.effects == [] || t.effects == [Save(k, row, why)] || t.effects == [Save(k, row, why), Enable(row.login)];
  }

  lemma ExtendUpdateEnsureRows(st: State, account: string, until: Time, k: nat, row: Mailbox, why: Why, i: nat,
                               faults: Faults)
    requires k < |st.rows|
    ensures WroteRow(st, Then([Extend(account, until)],
                              AndThen(Update(st, k, row, why, i, faults), Ensure(row.login, i, faults))), k, row)
  {
    var e := Extend(account, until);
    ReplayOne(st, e);
    var rest := AndThen(Update(st, k, row, why, i, faults), Ensure(row.login, i, faults));
    ReplayConcat(st, [e], rest.effects);
    UpdateEnsureRows(Apply(st, e), k, row, why, i, faults);
  }

  /** One charge: nothing to take, taken, or failed before the write. */
  lemma CreditRows(st: State, c: Charge, i: nat, faults: Faults)
    requires !st.freeMode
    ensures var t := CreditCharge(st, c, i, faults);
            var rows := Replay(st, t.effects).rows;
            match Find(st.rows, BySession(c.tag))
            case None => rows == st.rows
            case Some(k) =>
              || (rows == st.rows && (t.ok ==> Settled(st.rows[k], c) && t.count == 0))
              || (OnlyTook(st.rows, rows, k, c) && (t.ok ==> t.count == 1))
  {
    var found := Find(st.rows, BySession(c.tag));
    if found.Some? && !Settled(st.rows[found.value], c) && Call(Lookup, i) !in faults {
      var k := found.value;
      if st.rows[k].status == PendingPayment {
        MarkPaidRows(st, k, c, i, faults);
      } else {
        RenewRows(st, k, c, i, faults);
        RenewCounts(st, k, st.rows[k], c, i, faults);
      }
    }
  }

  /** A poll of one charge is that charge. */
  lemma PollOfOne(st: State, c: Charge, faults: Faults)
    ensures var t := CreditCharge(st, c, 0, faults);
            PollPrefix(st, [c], 1, faults) == Trace(t.effects, t.ok, if t.ok then t.count else 0)
  {
    hide CreditCharge;
    ReplayNothing(st);
    assert PollPrefix(st, [c], 0, faults) == Trace([], true, 0);
    assert [] + CreditCharge(st, c, 0, faults).effects == CreditCharge(st, c, 0, faults).effects;
  }
}
