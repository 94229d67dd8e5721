/**
 * Polls of a whole table, account-bound rows and their accounts included: what
 * repeated polls converge to, and the one kind of failure that breaks it.
 */
module AccountPolls {
  import opened Calendar
  import opened Domain
  import opened Lifecycle
  import opened PollSteps
  import opened Legality
  import opened PollConvergence
  import opened Access

  /** What a poll may change for good: rows and subscriptions. */
  datatype Ledger = Ledger(rows: seq<Mailbox>, accounts: map<string, Option<Time>>)

  function LedgerOf(st: State): Ledger {
    Ledger(st.rows, st.accounts)
  }

  /** The row a charge leaves, given the subscription of its account. */
  function CreditedRow(m: Mailbox, c: Charge, subscription: Option<Time>): Mailbox {
    if m.status == PendingPayment && !m.KeyBound() then
      WithCursor(m, Some(c)).(status := Active, paidAt := Some(c.at),
                              expiresAt := Some(AddMonths(Later(c.at, subscription), 1)))
    else CreditRow(m, c)
  }

  function Subscription(accounts: map<string, Option<Time>>, m: Mailbox): Option<Time> {
    if m.accountId in accounts then accounts[m.accountId] else None
  }

  /** The subscription goes along with an account-bound row. */
  function Extended(accounts: map<string, Option<Time>>, m: Mailbox, row: Mailbox): map<string, Option<Time>> {
    if m.KeyBound() || m.accountId !in accounts then accounts else accounts[m.accountId := row.expiresAt]
  }

  /** The row a charge is for, unless it is settled with it. */
  function Payee(rows: seq<Mailbox>, c: Charge): (k: Option<nat>)
    ensures k.Some? ==> k.value < |rows| && rows[k.value].session == c.tag && !Settled(rows[k.value], c)
  {
    var found := Find(rows, BySession(c.tag));
    if found.Some? && !Settled(rows[found.value], c) then found else None
  }

  /** A charge without failures; a pending row of an unknown account cannot take it. */
  function Credit(l: Ledger, c: Charge): Ledger {
    match Payee(l.rows, c)
    case None => l
    case Some(k) =>
      var m := l.rows[k];
      if m.status == PendingPayment && !m.KeyBound() && m.accountId !in l.accounts then l
      else
        var row := CreditedRow(m, c, Subscription(l.accounts, m));
        Ledger(l.rows[k := row], Extended(l.accounts, m, row))
  }

  /** The account was extended and the row was not written. */
  function Ahead(l: Ledger, c: Charge): Ledger {
    l.(accounts := Credit(l, c).accounts)
  }

  /** The charge is for a pending account-bound row: its expiry starts from the account, which is extended first. */
  predicate Risky(rows: seq<Mailbox>, c: Charge) {
    var k := Payee(rows, c);
    k.Some? && rows[k.value].status == PendingPayment && !rows[k.value].KeyBound()
  }

  function Fold(l: Ledger, charges: seq<Charge>): Ledger
    decreases |charges|
  {
    if charges == [] then l else Credit(Fold(l, charges[..|charges| - 1]), charges[|charges| - 1])
  }

  // ---------- one charge ----------

  /** What a charge with any failures leaves: nothing, all of it, or the account alone when the row was not written. */
  ghost predicate Outcome(before: Ledger, after: Ledger, c: Charge, ok: bool, lost: bool) {
    && (ok ==> after == Credit(before, c))
    && (after == before || after == Credit(before, c) || (lost && after == Ahead(before, c)))
  }

  lemma RowThenLogin(st: State, k: nat, row: Mailbox, why: Why, i: nat, faults: Faults)
    requires k < |st.rows| && UniqueRows(st.rows[k := row])
    ensures var t := AndThen(Update(st, k, row, why, i, faults), Ensure(row.login, i, faults));
            var after := Replay(st, t.effects);
            && after.accounts == st.accounts
            && after.rows == (if Call(RowWrite, i) in faults then st.rows else st.rows[k := row])
            && (t.ok ==> Call(RowWrite, i) !in faults)
  {
    hide UniqueRows; hide Replay;
    var e, f := Save(k, row, why), Enable(row.login);
    ReplayNothing(st);
    ReplayOne(st, e);
    ReplayTwo(st, e, f);
    assert [e] + [] == [e] && [e] + [f] == [e, f];
  }

  lemma AccountThenRow(st: State, m: Mailbox, k: nat, row: Mailbox, why: Why, i: nat, faults: Faults)
    requires k < |st.rows| && UniqueRows(st.rows[k := row]) && row.expiresAt.Some? && !m.KeyBound()
    ensures var t := Then([Extend(m.accountId, row.expiresAt.value)],
                          AndThen(Update(st, k, row, why, i, faults), Ensure(row.login, i, faults)));
            var after := Replay(st, t.effects);
            && after.accounts == Extended(st.accounts, m, row)
            && after.rows == (if Call(RowWrite, i) in faults then st.rows else st.rows[k := row])
            && (t.ok ==> Call(RowWrite, i) !in faults)
  {
    hide UniqueRows; hide Replay; hide Update; hide Ensure; hide AndThen;
    var e := Extend(m.accountId, row.expiresAt.value);
    var rest := AndThen(Update(st, k, row, why, i, faults), Ensure(row.login, i, faults));
    var mid := Apply(st, e);
    ReplayOne(st, e);
    ReplayConcat(st, [e], rest.effects);
    SameUpdate(st, mid, k, row, why, i, faults);
    RowThenLogin(mid, k, row, why, i, faults);
  }

  lemma SameUpdate(a: State, b: State, k: nat, row: Mailbox, why: Why, i: nat, faults: Faults)
    requires a.rows == b.rows
    ensures Update(a, k, row, why, i, faults) == Update(b, k, row, why, i, faults)
  {
    hide UniqueRows;
  }

  lemma PendingOutcome(st: State, k: nat, c: Charge, i: nat, faults: Faults)
    requires UniqueRows(st.rows) && !st.freeMode && Payee(st.rows, c) == Some(k) && st.rows[k].status == PendingPayment
    ensures var t := MarkPaid(st, c.tag, Some(c), c.at, i, faults);
            Outcome(LedgerOf(st), LedgerOf(Replay(st, t.effects)), c, t.ok, Call(RowWrite, i) in faults)
  {
    hide AddMonths; hide UniqueRows; hide Find; hide Replay; hide Update; hide Ensure; hide AndThen; hide Settled;
    var m := st.rows[k];
    ReplayNothing(st);
    if m.KeyBound() {
      var row := CreditRow(m, c);
      UniqueWith(st.rows, k, row);
      RowThenLogin(st, k, row, Paid(Some(c), Later(c.at, m.expiresAt), MonthsGranted(m)), i, faults);
    } else if m.accountId in st.accounts {
      var base := Later(c.at, st.accounts[m.accountId]);
      var row := CreditedRow(m, c, Subscription(st.accounts, m));
      UniqueWith(st.rows, k, row);
      AccountThenRow(st, m, k, row, Paid(Some(c), base, 1), i, faults);
    }
  }

  lemma RenewalOutcome(st: State, k: nat, c: Charge, i: nat, faults: Faults)
    requires UniqueRows(st.rows) && Payee(st.rows, c) == Some(k) && st.rows[k].status != PendingPayment
    ensures var t := Renew(st, k, st.rows[k], c, i, faults);
            Outcome(LedgerOf(st), LedgerOf(Replay(st, t.effects)), c, t.ok, Call(RowWrite, i) in faults)
  {
    hide AddMonths; hide UniqueRows; hide Find; hide Replay; hide Update; hide Ensure; hide AndThen;
    var m := st.rows[k];
    var row := CreditRow(m, c);
    var why := Renewed(c, Later(c.at, m.expiresAt));
    ReplayNothing(st);
    UniqueWith(st.rows, k, row);
    if m.KeyBound() {
      RowThenLogin(st, k, row, why, i, faults);
      var rest := AndThen(Update(st, k, row, why, i, faults), Ensure(m.login, i, faults));
      assert [] + rest.effects == rest.effects;
    } else {
      AccountThenRow(st, m, k, row, why, i, faults);
    }
  }

  lemma ChargeOutcome(st: State, c: Charge, i: nat, faults: Faults)
    requires UniqueRows(st.rows) && !st.freeMode
    ensures var t := CreditCharge(st, c, i, faults);
            Outcome(LedgerOf(st), LedgerOf(Replay(st, t.effects)), c, t.ok, Call(RowWrite, i) in faults)
  {
    hide UniqueRows; hide MarkPaid; hide Renew; hide Find; hide Settled; hide Replay; hide Credit; hide Ahead;
    ReplayNothing(st);
    var k := Payee(st.rows, c);
    if k.None? {
      NoPayee(LedgerOf(st), c);
    } else if st.rows[k.value].status == PendingPayment {
      PendingOutcome(st, k.value, c, i, faults);
    } else {
      RenewalOutcome(st, k.value, c, i, faults);
    }
  }

  lemma NoPayee(l: Ledger, c: Charge)
    requires Payee(l.rows, c).None?
    ensures Credit(l, c) == l && Ahead(l, c) == l
  {
  }

  /** Unless the row is pending, an account that is ahead already changes nothing for the retry. */
  lemma AheadIsHarmless(l: Ledger, c: Charge)
    requires !Risky(l.rows, c)
    ensures Credit(Ahead(l, c), c) == Credit(l, c) && Ahead(Ahead(l, c), c) == Ahead(l, c)
  {
    hide AddMonths; hide Find; hide Settled;
  }

  // ---------- charges that are done ----------

  /** A charge that has no payee has none after any other charge, and one that was credited has none. */
  lemma CreditSettlesRows(l: Ledger, c: Charge, d: Charge)
    ensures Payee(l.rows, d).None? ==> Payee(Credit(l, c).rows, d).None?
    ensures Credit(l, c) != l ==> Payee(Credit(l, c).rows, c).None?
  {
    hide AddMonths; hide Find;
    var after := Credit(l, c);
    var k := Payee(l.rows, c);
    if after != l {
      FindKept(l.rows, after.rows, c.tag);
      FindKept(l.rows, after.rows, d.tag);
    }
  }

  /** A charge that went through has no payee any more. */
  lemma OkSettles(st: State, c: Charge, i: nat, faults: Faults)
    requires UniqueRows(st.rows) && !st.freeMode && CreditCharge(st, c, i, faults).ok
    ensures Payee(Credit(LedgerOf(st), c).rows, c).None?
  {
    hide UniqueRows; hide Replay; hide CreditCharge; hide Credit; hide Find; hide Settled;
    ChargeOutcome(st, c, i, faults);
    CreditSkips(st, c, i, faults, c);
  }

  // ---------- polls ----------

  /**
   * The first j charges are done, none of them has a payee any more, and at
   * most the account of a row to be renewed by the next is ahead.
   */
  ghost predicate Progress(start: Ledger, all: seq<Charge>, j: nat, now: Ledger) {
    && j <= |all|
    && var done := Fold(start, all[..j]);
       && (forall i :: 0 <= i < j ==> Payee(done.rows, all[i]).None?)
       && (now == done || (j < |all| && !Risky(done.rows, all[j]) && now == Ahead(done, all[j])))
  }

  lemma FoldStep(start: Ledger, all: seq<Charge>, j: nat)
    requires j < |all|
    ensures Fold(start, all[..j + 1]) == Credit(Fold(start, all[..j]), all[j])
  {
    assert all[..j + 1][..j] == all[..j];
  }

  /** The next charge is done. */
  lemma Advance(start: Ledger, all: seq<Charge>, j: nat, now: Ledger)
    requires j < |all| && Progress(start, all, j, now)
    requires Payee(Credit(now, all[j]).rows, all[j]).None?
    ensures Progress(start, all, j + 1, Credit(now, all[j]))
  {
    hide Credit; hide Ahead; hide Risky; hide Payee; hide Fold;
    var done := Fold(start, all[..j]);
    FoldStep(start, all, j);
    if now != done {
      AheadIsHarmless(done, all[j]);
    }
    forall i | 0 <= i < j + 1 ensures Payee(Credit(done, all[j]).rows, all[i]).None? {
      if i < j {
        CreditSettlesRows(done, all[j], all[i]);
      }
    }
  }

  /** One charge of a poll of a prefix of `all`. */
  lemma ChargeProgress(start: Ledger, all: seq<Charge>, j: nat, st: State, i: nat, faults: Faults) returns (j': nat)
    requires UniqueRows(st.rows) && !st.freeMode && i < |all| && i <= j && Progress(start, all, j, LedgerOf(st))
    requires Call(RowWrite, i) in faults ==> !Risky(st.rows, all[i])
    ensures var t := CreditCharge(st, all[i], i, faults);
            && Progress(start, all, j', LedgerOf(Replay(st, t.effects)))
            && j <= j' && (t.ok ==> i + 1 <= j')
  {
    hide UniqueRows; hide CreditCharge; hide Credit; hide Ahead; hide Find; hide Settled; hide Replay; hide Fold;
    var c := all[i];
    var l := LedgerOf(st);
    var done := Fold(start, all[..j]);
    var t := CreditCharge(st, c, i, faults);
    var after := LedgerOf(Replay(st, t.effects));
    ChargeOutcome(st, c, i, faults);
    AheadRows(done, if j < |all| then all[j] else c);
    if i < j {
      NoPayee(l, c);
      j' := j;
    } else if after == l && !t.ok {
      j' := j;
    } else if after == Credit(l, c) && (t.ok || Credit(l, c) != l) {
      if t.ok {
        OkSettles(st, c, i, faults);
      } else {
        CreditSettlesRows(l, c, c);
      }
      Advance(start, all, j, l);
      j' := j + 1;
    } else {
      AheadIsHarmless(done, c);
      j' := j;
    }
  }

  lemma AheadRows(l: Ledger, c: Charge)
    ensures Ahead(l, c).rows == l.rows
  {
  }

  /** No row write is lost for a pending account-bound row: something to see before each write. */
  ghost predicate Careful(st: State, feed: seq<Charge>, faults: Faults) {
    forall i :: 0 <= i < |feed| && Call(RowWrite, i) in faults && PollPrefix(st, feed, i, faults).ok ==>
      !Risky(Replay(st, PollPrefix(st, feed, i, faults).effects).rows, feed[i])
  }

  lemma {:induction false} PrefixProgress(start: Ledger, all: seq<Charge>, j0: nat, st: State, feed: seq<Charge>,
                                          n: nat, faults: Faults)
      returns (j: nat)
    requires Consistent(st) && !st.freeMode && feed <= all && n <= |feed| && Careful(st, feed, faults)
    requires Progress(start, all, j0, LedgerOf(st))
    ensures var t := PollPrefix(st, feed, n, faults);
            && Progress(start, all, j, LedgerOf(Replay(st, t.effects)))
            && j0 <= j && (t.ok ==> n <= j)
  {
    hide CreditCharge; hide Consistent; hide Replay; hide Risky; hide Progress;
    if n == 0 {
      ReplayNothing(st);
      j := j0;
    } else {
      j := PrefixProgress(start, all, j0, st, feed, n - 1, faults);
      var before := PollPrefix(st, feed, n - 1, faults);
      if before.ok {
        var mid := Replay(st, before.effects);
        PollPrefixLegal(st, feed, n - 1, faults);
        RunKeepsConsistent(st, before.effects);
        ConsistentUnique(mid);
        PollQuiet(st, feed, n - 1, faults);
        ModeKept(st, before.effects);
        assert feed[n - 1] == all[n - 1];
        j := ChargeProgress(start, all, j, mid, n - 1, faults);
        ReplayConcat(st, before.effects, CreditCharge(mid, feed[n - 1], n - 1, faults).effects);
      }
    }
  }

  /** Every poll of the sequence saw a prefix of the charges, and lost no row write of a pending account-bound row. */
  ghost predicate CarefulPolls(st: State, polls: seq<Attempt>, all: seq<Charge>)
    decreases |polls|
  {
    polls == [] ||
    var n := |polls| - 1;
    && CarefulPolls(st, polls[..n], all)
    && (polls[n].feed.Some? ==>
          polls[n].feed.value <= all && Careful(AfterPolls(st, polls[..n]), polls[n].feed.value, polls[n].faults))
  }

  lemma {:induction false} PollsProgress(st: State, polls: seq<Attempt>, all: seq<Charge>) returns (j: nat)
    requires Consistent(st) && !st.freeMode && CarefulPolls(st, polls, all)
    ensures var after := AfterPolls(st, polls);
            Consistent(after) && !after.freeMode && Progress(LedgerOf(st), all, j, LedgerOf(after))
    decreases |polls|
  {
    hide PollPrefix; hide Consistent; hide Progress; hide Careful;
    if polls == [] {
      NoProgress(LedgerOf(st), all);
      j := 0;
    } else {
      var n := |polls| - 1;
      j := PollsProgress(st, polls[..n], all);
      var before := AfterPolls(st, polls[..n]);
      var last := polls[n];
      PollLegal(before, last.feed, last.faults);
      RunKeepsConsistent(before, Poll(before, last.feed, last.faults).effects);
      ModeKept(before, Poll(before, last.feed, last.faults).effects);
      if last.feed.Some? {
        j := PrefixProgress(LedgerOf(st), all, j, before, last.feed.value, |last.feed.value|, last.faults);
      }
    }
  }

  lemma NoProgress(start: Ledger, all: seq<Charge>)
    ensures Progress(start, all, 0, start)
  {
    assert all[..0] == [];
  }

  /** A poll that succeeds lost no row write that it needed. */
  lemma OkIsCareful(st: State, feed: seq<Charge>, faults: Faults)
    requires Consistent(st) && !st.freeMode && Poll(st, Some(feed), faults).ok
    ensures Careful(st, feed, faults)
  {
    hide CreditCharge; hide Consistent; hide Replay; hide Risky;
    forall i | 0 <= i < |feed| && Call(RowWrite, i) in faults && PollPrefix(st, feed, i, faults).ok
      ensures !Risky(Replay(st, PollPrefix(st, feed, i, faults).effects).rows, feed[i])
    {
      var mid := Replay(st, PollPrefix(st, feed, i, faults).effects);
      if !PollPrefix(st, feed, i + 1, faults).ok {
        PollStuck(st, feed, i + 1, |feed|, faults);
      }
      PollQuiet(st, feed, i, faults);
      ModeKept(st, PollPrefix(st, feed, i, faults).effects);
      RiskyWriteFails(mid, feed[i], i, faults);
    }
  }

  lemma RiskyWriteFails(st: State, c: Charge, i: nat, faults: Faults)
    requires !st.freeMode && Call(RowWrite, i) in faults
    ensures Risky(st.rows, c) ==> !CreditCharge(st, c, i, faults).ok
  {
    hide AddMonths; hide Find; hide Settled; hide Ensure;
  }

  /**
   * Polls of prefixes of the charges, cut short by any failures but a lost row
   * write of a pending account-bound row, and then one successful poll of all
   * of them, leave every row and every account as one successful poll does.
   */
  lemma AccountsConverge(st: State, polls: seq<Attempt>, all: seq<Charge>, faults: Faults)
    requires Consistent(st) && !st.freeMode && CarefulPolls(st, polls, all)
    requires Poll(AfterPolls(st, polls), Some(all), faults).ok
    ensures var final := Replay(AfterPolls(st, polls), Poll(AfterPolls(st, polls), Some(all), faults).effects);
            && LedgerOf(final) == Fold(LedgerOf(st), all)
            && forall calm: Faults :: Poll(st, Some(all), calm).ok ==>
                 LedgerOf(Replay(st, Poll(st, Some(all), calm).effects)) == LedgerOf(final)
  {
    hide PollPrefix; hide Consistent; hide Progress; hide Careful; hide Replay; hide Fold;
    var before := AfterPolls(st, polls);
    var j := PollsProgress(st, polls, all);
    WholePoll(LedgerOf(st), all, j, before, faults);
    forall calm: Faults | Poll(st, Some(all), calm).ok
      ensures LedgerOf(Replay(st, Poll(st, Some(all), calm).effects)) == Fold(LedgerOf(st), all)
    {
      NoProgress(LedgerOf(st), all);
      WholePoll(LedgerOf(st), all, 0, st, calm);
    }
  }

  lemma WholePoll(start: Ledger, all: seq<Charge>, j: nat, st: State, faults: Faults)
    requires Consistent(st) && !st.freeMode && Progress(start, all, j, LedgerOf(st)) && Poll(st, Some(all), faults).ok
    ensures LedgerOf(Replay(st, Poll(st, Some(all), faults).effects)) == Fold(start, all)
  {
    hide PollPrefix; hide Consistent; hide Careful; hide Replay; hide Fold;
    OkIsCareful(st, all, faults);
    var done := PrefixProgress(start, all, j, st, all, |all|, faults);
    assert all[..|all|] == all;
  }
}
