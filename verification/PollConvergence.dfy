/**
 * Polls that fail anywhere, repeated until one succeeds, leave the rows that
 * one uninterrupted poll leaves.
 */
module PollConvergence {
  import opened Calendar
  import opened Domain
  import opened Lifecycle
  import opened PollSteps
  import opened Legality

  // ---------- one row and its charges ----------

  /** The charges that carry a tag, in feed order. */
  function Tagged(charges: seq<Charge>, tag: string): seq<Charge>
    decreases |charges|
  {
    if charges == [] then []
    else
      var n := |charges| - 1;
      Tagged(charges[..n], tag) + (if charges[n].tag == tag then [charges[n]] else [])
  }

  /** A key-bound row after all of the charges. */
  function FoldRow(m: Mailbox, charges: seq<Charge>): Mailbox
    decreases |charges|
  {
    if charges == [] then m
    else CreditRow(FoldRow(m, charges[..|charges| - 1]), charges[|charges| - 1])
  }

  lemma {:induction false} FoldConcat(m: Mailbox, a: seq<Charge>, b: seq<Charge>)
    ensures FoldRow(m, a + b) == FoldRow(FoldRow(m, a), b)
    decreases |b|
  {
    hide CreditRow;
    if b == [] {
      assert a + b == a;
    } else {
      var n := |b| - 1;
      assert (a + b)[..|a + b| - 1] == a + b[..n];
      FoldConcat(m, a, b[..n]);
    }
  }

  /** Taking a charge settles it, and unsettles none. */
  lemma CreditSettles(m: Mailbox, c: Charge, d: Charge)
    ensures Settled(CreditRow(m, c), c)
    ensures Settled(m, d) ==> Settled(CreditRow(m, c), d)
  {
    hide AddMonths;
  }

  lemma {:induction false} FoldSettles(m: Mailbox, charges: seq<Charge>, c: Charge)
    requires c in charges || Settled(m, c)
    ensures Settled(FoldRow(m, charges), c)
    decreases |charges|
  {
    hide CreditRow; hide Settled;
    if charges != [] {
      var n := |charges| - 1;
      var last := charges[n];
      CreditSettles(FoldRow(m, charges[..n]), last, c);
      assert charges == charges[..n] + [last];
      if c != last {
        FoldSettles(m, charges[..n], c);
      }
    }
  }

  lemma {:induction false} FoldSettled(m: Mailbox, charges: seq<Charge>)
    requires forall c :: c in charges ==> Settled(m, c)
    ensures FoldRow(m, charges) == m
    decreases |charges|
  {
    if charges != [] {
      FoldSettled(m, charges[..|charges| - 1]);
    }
  }

  /** Charges seen twice count once: of two prefixes of one list only the longer matters. */
  lemma FoldPrefixes(m: Mailbox, a: seq<Charge>, b: seq<Charge>)
    requires a <= b || b <= a
    ensures FoldRow(FoldRow(m, a), b) == FoldRow(m, if |a| <= |b| then b else a)
  {
    hide CreditRow; hide Settled;
    var common := if |a| <= |b| then a else b;
    var rest := b[|common|..];
    assert b == common + rest && common == a[..|common|];
    forall c | c in common ensures Settled(FoldRow(m, a), c) {
      FoldSettles(m, a, c);
    }
    FoldSettled(FoldRow(m, a), common);
    FoldConcat(FoldRow(m, a), common, rest);
    FoldConcat(m, a, rest);
    if |a| <= |b| {
      assert a + rest == b;
    } else {
      assert rest == [] && a + rest == a;
    }
  }

  lemma {:induction false} TaggedPrefix(charges: seq<Charge>, n: nat, tag: string)
    requires n <= |charges|
    ensures Tagged(charges[..n], tag) <= Tagged(charges, tag)
    decreases |charges|
  {
    if n < |charges| {
      var last := |charges| - 1;
      TaggedPrefix(charges[..last], n, tag);
      assert charges[..last][..n] == charges[..n];
    } else {
      assert charges[..n] == charges;
    }
  }

  // ---------- one poll ----------

  /** Row k has taken the charges of its tag among some prefix of the poll, all of it when nothing failed. */
  ghost predicate RowPolled(m: Mailbox, row: Mailbox, charges: seq<Charge>, n: nat, ok: bool)
    requires n <= |charges|
  {
    && SameCheckout(m, row)
    && exists p :: 0 <= p <= n && (ok ==> p == n) && row == FoldRow(m, Tagged(charges[..p], m.session))
  }

  lemma {:induction false} PollRow(st: State, charges: seq<Charge>, n: nat, faults: Faults, k: nat)
    requires Consistent(st) && !st.freeMode && n <= |charges|
    requires k < |st.rows| && st.rows[k].KeyBound()
    ensures var t := PollPrefix(st, charges, n, faults);
            var rows := Replay(st, t.effects).rows;
            |rows| == |st.rows| && RowPolled(st.rows[k], rows[k], charges, n, t.ok)
  {
    hide CreditCharge; hide CreditRow; hide Consistent; hide RowPolled;
    var m := st.rows[k];
    if n == 0 {
      PolledNothing(m, charges);
    } else {
      PollRow(st, charges, n - 1, faults, k);
      PollPrefixLegal(st, charges, n - 1, faults);
      var before := PollPrefix(st, charges, n - 1, faults);
      var mid := Replay(st, before.effects);
      if before.ok {
        RunKeepsConsistent(st, before.effects);
        ModeKept(st, before.effects);
        PolledKeyBound(m, mid.rows[k], charges, n - 1, true);
        var step := CreditCharge(mid, charges[n - 1], n - 1, faults);
        ReplayConcat(st, before.effects, step.effects);
        CreditRow1(mid, charges[n - 1], n - 1, faults, k);
        PolledStep(m, mid.rows[k], Replay(mid, step.effects).rows[k], charges, n, step.ok);
      } else {
        PolledLess(m, mid.rows[k], charges, n);
      }
    }
  }

  lemma PolledNothing(m: Mailbox, charges: seq<Charge>)
    ensures RowPolled(m, m, charges, 0, true)
  {
    assert charges[..0] == [] && m == FoldRow(m, Tagged(charges[..0], m.session));
  }

  lemma PolledLess(m: Mailbox, row: Mailbox, charges: seq<Charge>, n: nat)
    requires 0 < n <= |charges| && RowPolled(m, row, charges, n - 1, false)
    ensures RowPolled(m, row, charges, n, false)
  {
  }

  lemma PolledKeyBound(m: Mailbox, row: Mailbox, charges: seq<Charge>, n: nat, ok: bool)
    requires n <= |charges| && RowPolled(m, row, charges, n, ok)
    ensures row.accountId == m.accountId && row.session == m.session
  {
  }

  lemma PolledStep(m: Mailbox, row: Mailbox, next: Mailbox, charges: seq<Charge>, n: nat, ok: bool)
    requires 0 < n <= |charges| && RowPolled(m, row, charges, n - 1, true)
    requires var c := charges[n - 1];
             && SameCheckout(row, next)
             && (next == row || (row.session == c.tag && next == CreditRow(row, c)))
             && (ok && row.session == c.tag ==> next == CreditRow(row, c))
    ensures RowPolled(m, next, charges, n, ok)
  {
    hide CreditRow;
    var c := charges[n - 1];
    var before := Tagged(charges[..n - 1], m.session);
    assert charges[..n][..n - 1] == charges[..n - 1];
    assert Tagged(charges[..n], m.session) == before + (if c.tag == m.session then [c] else []);
    assert row == FoldRow(m, before);
    if c.tag == m.session {
      assert (before + [c])[..|before|] == before;
      if next == CreditRow(row, c) {
        assert next == FoldRow(m, Tagged(charges[..n], m.session));
      } else {
        assert next == FoldRow(m, Tagged(charges[..n - 1], m.session));
      }
    } else {
      assert before + [] == before;
      assert next == FoldRow(m, Tagged(charges[..n], m.session));
    }
  }

  /** One charge on row k, whichever row the charge belongs to. */
  lemma CreditRow1(st: State, c: Charge, i: nat, faults: Faults, k: nat)
    requires Consistent(st) && !st.freeMode && k < |st.rows| && st.rows[k].KeyBound()
    ensures var t := CreditCharge(st, c, i, faults);
            var rows := Replay(st, t.effects).rows;
            && |rows| == |st.rows|
            && SameCheckout(st.rows[k], rows[k])
            && (rows[k] == st.rows[k] || (st.rows[k].session == c.tag && rows[k] == CreditRow(st.rows[k], c)))
            && (t.ok && st.rows[k].session == c.tag ==> rows[k] == CreditRow(st.rows[k], c))
  {
    hide CreditCharge; hide AddMonths;
    CreditRows(st, c, i, faults);
    if st.rows[k].session == c.tag {
      if c.tag != "" {
        FindUnique(st.rows, BySession(c.tag), k);
      } else {
        assert Settled(st.rows[k], c);
      }
    }
  }

  // ---------- many polls ----------

  /** One poll: the feed it got, if any, and the calls that failed. */
  datatype Attempt = Attempt(feed: Option<seq<Charge>>, faults: Faults)

  function AfterPolls(st: State, polls: seq<Attempt>): State
    decreases |polls|
  {
    if polls == [] then st
    else
      var before := AfterPolls(st, polls[..|polls| - 1]);
      var last := polls[|polls| - 1];
      Replay(before, Poll(before, last.feed, last.faults).effects)
  }

  /** Per mailbox, a feed shows the first of the charges of a fuller feed. */
  ghost predicate ShowsPartOf(feed: seq<Charge>, all: seq<Charge>) {
    forall tag: string :: Tagged(feed, tag) <= Tagged(all, tag)
  }

  lemma {:induction false} PollsRow(st: State, polls: seq<Attempt>, all: seq<Charge>, k: nat)
      returns (seen: seq<Charge>)
    requires Consistent(st) && !st.freeMode
    requires k < |st.rows| && st.rows[k].KeyBound()
    requires forall i :: 0 <= i < |polls| && polls[i].feed.Some? ==> ShowsPartOf(polls[i].feed.value, all)
    ensures var after := AfterPolls(st, polls);
            && Consistent(after) && !after.freeMode && |after.rows| == |st.rows|
            && SameCheckout(st.rows[k], after.rows[k])
            && after.rows[k] == FoldRow(st.rows[k], seen)
    ensures seen <= Tagged(all, st.rows[k].session)
    decreases |polls|
  {
    hide PollPrefix; hide FoldRow; hide Consistent;
    if polls == [] {
      seen := [];
      FoldNothing(st.rows[k]);
    } else {
      seen := PollsRow(st, polls[..|polls| - 1], all, k);
      var before := AfterPolls(st, polls[..|polls| - 1]);
      var last := polls[|polls| - 1];
      var t := Poll(before, last.feed, last.faults);
      PollLegal(before, last.feed, last.faults);
      RunKeepsConsistent(before, t.effects);
      ModeKept(before, t.effects);
      if last.feed.Some? {
        var feed := last.feed.value;
        PollRow(before, feed, |feed|, last.faults, k);
        var now := PolledPart(before.rows[k], AfterPolls(st, polls).rows[k], feed, t.ok);
        FoldPrefixes(st.rows[k], seen, now);
        seen := if |seen| <= |now| then now else seen;
      }
    }
  }

  lemma FoldNothing(m: Mailbox)
    ensures FoldRow(m, []) == m
  {
  }

  lemma PolledPart(m: Mailbox, row: Mailbox, feed: seq<Charge>, ok: bool) returns (part: seq<Charge>)
    requires RowPolled(m, row, feed, |feed|, ok)
    ensures part <= Tagged(feed, m.session) && row == FoldRow(m, part)
    ensures ok ==> part == Tagged(feed, m.session)
    ensures SameCheckout(m, row)
  {
    var p :| 0 <= p <= |feed| && (ok ==> p == |feed|) && row == FoldRow(m, Tagged(feed[..p], m.session));
    part := Tagged(feed[..p], m.session);
    TaggedPrefix(feed, p, m.session);
    assert feed[..|feed|] == feed;
  }

  /**
   * Any sequence of polls, each of a part of the charges and each possibly
   * cut short by a failure at any port call, followed by one successful poll
   * of all the charges, leaves every key-bound row as one successful poll of
   * them does: with the charges of its tag folded in, once each.
   */
  lemma PollsConverge(st: State, polls: seq<Attempt>, all: seq<Charge>, faults: Faults, k: nat)
    requires Consistent(st) && !st.freeMode
    requires k < |st.rows| && st.rows[k].KeyBound()
    requires forall i :: 0 <= i < |polls| && polls[i].feed.Some? ==> ShowsPartOf(polls[i].feed.value, all)
    requires Poll(AfterPolls(st, polls), Some(all), faults).ok
    ensures var final := Replay(AfterPolls(st, polls), Poll(AfterPolls(st, polls), Some(all), faults).effects);
            && k < |final.rows|
            && final.rows[k] == FoldRow(st.rows[k], Tagged(all, st.rows[k].session))
            && forall calm: Faults :: Poll(st, Some(all), calm).ok ==>
                 var once := Replay(st, Poll(st, Some(all), calm).effects);
                 k < |once.rows| && final.rows[k] == once.rows[k]
  {
    hide PollPrefix; hide FoldRow;
    var seen := PollsRow(st, polls, all, k);
    var before := AfterPolls(st, polls);
    PollRow(before, all, |all|, faults, k);
    var final := Replay(before, Poll(before, Some(all), faults).effects);
    var now := PolledPart(before.rows[k], final.rows[k], all, true);
    FoldPrefixes(st.rows[k], seen, now);
    assert |seen| <= |now|;
    forall calm: Faults | Poll(st, Some(all), calm).ok
      ensures var once := Replay(st, Poll(st, Some(all), calm).effects);
              k < |once.rows| && final.rows[k] == once.rows[k]
    {
      PollRow(st, all, |all|, calm, k);
      var once := PolledPart(st.rows[k], Replay(st, Poll(st, Some(all), calm).effects).rows[k], all, true);
    }
  }

  // ---------- polling again ----------

  /** The poll has nothing to do for a charge. */
  ghost predicate Skipped(st: State, c: Charge) {
    var found := Find(st.rows, BySession(c.tag));
    found.None? || Settled(st.rows[found.value], c)
  }

  /** Rows that change only by taking charges are found under the same sessions. */
  lemma FindKept(before: seq<Mailbox>, after: seq<Mailbox>, session: string)
    requires |before| == |after| && forall i :: 0 <= i < |before| ==> before[i].session == after[i].session
    ensures Find(before, BySession(session)) == Find(after, BySession(session))
  {
    FindFromKept(before, after, session, 0);
  }

  lemma {:induction false} FindFromKept(before: seq<Mailbox>, after: seq<Mailbox>, session: string, start: nat)
    requires |before| == |after| && forall i :: 0 <= i < |before| ==> before[i].session == after[i].session
    requires start <= |before|
    ensures FindFrom(before, BySession(session), start) == FindFrom(after, BySession(session), start)
    decreases |before| - start
  {
    if start < |before| {
      FindFromKept(before, after, session, start + 1);
    }
  }

  lemma CreditSkips(st: State, c: Charge, i: nat, faults: Faults, d: Charge)
    requires !st.freeMode
    requires Skipped(st, d) || (d == c && CreditCharge(st, c, i, faults).ok)
    ensures Skipped(Replay(st, CreditCharge(st, c, i, faults).effects), d)
  {
    hide CreditCharge; hide AddMonths; hide Find;
    CreditRows(st, c, i, faults);
    FindKept(st.rows, Replay(st, CreditCharge(st, c, i, faults).effects).rows, d.tag);
    var found := Find(st.rows, BySession(d.tag));
    if found.Some? {
      TookSettles(st.rows, Replay(st, CreditCharge(st, c, i, faults).effects).rows, found.value, c, d);
    }
  }

  lemma TookSettles(before: seq<Mailbox>, after: seq<Mailbox>, k: nat, c: Charge, d: Charge)
    requires k < |before| == |after|
    ensures forall j: nat :: OnlyTook(before, after, j, c) ==>
              (Settled(before[k], d) ==> Settled(after[k], d)) && (j == k ==> Settled(after[k], c))
  {
    hide AddMonths;
  }

  lemma {:induction false} PollSkips(st: State, charges: seq<Charge>, n: nat, faults: Faults, d: Charge)
    requires !st.freeMode && n <= |charges|
    requires PollPrefix(st, charges, n, faults).ok
    requires Skipped(st, d) || d in charges[..n]
    ensures Skipped(Replay(st, PollPrefix(st, charges, n, faults).effects), d)
  {
    hide CreditCharge; hide Skipped;
    if n > 0 {
      var before := PollPrefix(st, charges, n - 1, faults);
      var mid := Replay(st, before.effects);
      var c := charges[n - 1];
      PollQuiet(st, charges, n - 1, faults);
      ModeKept(st, before.effects);
      assert charges[..n] == charges[..n - 1] + [c];
      if Skipped(st, d) || d in charges[..n - 1] {
        PollSkips(st, charges, n - 1, faults, d);
      }
      CreditSkips(mid, c, n - 1, faults, d);
      ReplayConcat(st, before.effects, CreditCharge(mid, c, n - 1, faults).effects);
    }
  }

  lemma {:induction false} PollQuiet(st: State, charges: seq<Charge>, n: nat, faults: Faults)
    requires n <= |charges|
    ensures Quiet(PollPrefix(st, charges, n, faults).effects)
  {
    hide CreditCharge;
    if n > 0 {
      PollQuiet(st, charges, n - 1, faults);
      CreditQuiet(Replay(st, PollPrefix(st, charges, n - 1, faults).effects), charges[n - 1], n - 1, faults);
    }
  }

  lemma {:induction false} PollIdle(st: State, charges: seq<Charge>, n: nat, faults: Faults)
    requires n <= |charges| && forall c :: c in charges ==> Skipped(st, c)
    ensures PollPrefix(st, charges, n, faults).effects == [] && PollPrefix(st, charges, n, faults).count == 0
  {
    hide CreditCharge; hide Skipped;
    if n > 0 {
      PollIdle(st, charges, n - 1, faults);
      assert charges[n - 1] in charges;
      CreditIdle(st, charges[n - 1], n - 1, faults);
    }
  }

  lemma CreditIdle(st: State, c: Charge, i: nat, faults: Faults)
    requires Skipped(st, c)
    ensures CreditCharge(st, c, i, faults).effects == [] && CreditCharge(st, c, i, faults).count == 0
  {
  }

  /** After a successful poll the same charges, polled again, apply none and write nothing at all. */
  lemma PollAgainIdle(st: State, all: seq<Charge>, faults: Faults, again: Faults)
    requires !st.freeMode && Poll(st, Some(all), faults).ok
    ensures var after := Replay(st, Poll(st, Some(all), faults).effects);
            Poll(after, Some(all), again).effects == [] && Poll(after, Some(all), again).count == 0
  {
    hide PollPrefix; hide Skipped;
    var after := Replay(st, Poll(st, Some(all), faults).effects);
    PollQuiet(st, all, |all|, faults);
    ModeKept(st, Poll(st, Some(all), faults).effects);
    assert all[..|all|] == all;
    forall c | c in all ensures Skipped(after, c) {
      PollSkips(st, all, |all|, faults, c);
    }
    PollIdle(after, all, |all|, again);
  }

  // ---------- account-bound rows ----------

  /** What a charge makes of an account's subscription, from the base it starts at. */
  function ChargeBase(st: State, m: Mailbox, c: Charge): Time
    requires m.accountId in st.accounts
  {
    if m.status == PendingPayment then Later(c.at, st.accounts[m.accountId]) else Later(c.at, m.expiresAt)
  }

  /**
   * Account-bound rows do not converge in general: when the row write fails
   * after the account was extended, the retry extends the account once more
   * exactly if the row was still pending.
   */
  lemma AccountRetry(st: State, k: nat, c: Charge)
    requires UniqueRows(st.rows) && !st.freeMode && k < |st.rows|
    requires Find(st.rows, BySession(c.tag)) == Some(k) && !Settled(st.rows[k], c)
    requires !st.rows[k].KeyBound() && st.rows[k].accountId in st.accounts
    ensures var m := st.rows[k];
            var once := AddMonths(ChargeBase(st, m, c), 1);
            var failed := CreditCharge(st, c, 0, {Call(RowWrite, 0)});
            var retry := CreditCharge(Replay(st, failed.effects), c, 0, {});
            var accounts := Replay(Replay(st, failed.effects), retry.effects).accounts;
            && !failed.ok && retry.ok && m.accountId in accounts
            && accounts[m.accountId] == Some(if m.status == PendingPayment then AddMonths(once, 1) else once)
            && (accounts[m.accountId] == Some(once) <==> m.status != PendingPayment)
  {
    hide AddMonths; hide UniqueRows;
    var m := st.rows[k];
    var once := AddMonths(ChargeBase(st, m, c), 1);
    AddMonthsSpan(ChargeBase(st, m, c), 1);
    AddMonthsSpan(once, 1);
    var e := Extend(m.accountId, once);
    var mid := Apply(st, e);
    ReplayOne(st, e);
    AccountWriteFails(st, k, c);
    AccountRetryWorks(mid, k, c);
    assert ChargeBase(mid, m, c) == if m.status == PendingPayment then once else ChargeBase(st, m, c);
  }

  lemma AccountWriteFails(st: State, k: nat, c: Charge)
    requires !st.freeMode && k < |st.rows|
    requires Find(st.rows, BySession(c.tag)) == Some(k) && !Settled(st.rows[k], c)
    requires !st.rows[k].KeyBound() && st.rows[k].accountId in st.accounts
    ensures var t := CreditCharge(st, c, 0, {Call(RowWrite, 0)});
            !t.ok && t.effects == [Extend(st.rows[k].accountId, AddMonths(ChargeBase(st, st.rows[k], c), 1))]
  {
    hide AddMonths; hide UniqueRows;
  }

  lemma AccountRetryWorks(st: State, k: nat, c: Charge)
    requires UniqueRows(st.rows) && !st.freeMode && k < |st.rows|
    requires Find(st.rows, BySession(c.tag)) == Some(k) && !Settled(st.rows[k], c)
    requires !st.rows[k].KeyBound() && st.rows[k].accountId in st.accounts
    ensures var t := CreditCharge(st, c, 0, {});
            t.ok && Replay(st, t.effects).accounts ==
                      st.accounts[st.rows[k].accountId := Some(AddMonths(ChargeBase(st, st.rows[k], c), 1))]
  {
    hide AddMonths; hide UniqueRows;
    var m := st.rows[k];
    var base := ChargeBase(st, m, c);
    var e := Extend(m.accountId, AddMonths(base, 1));
    var row := if m.status == PendingPayment
               then WithCursor(m, Some(c)).(status := Active, paidAt := Some(c.at),
                                            expiresAt := Some(AddMonths(base, 1)))
               else Credited(WithCursor(m, Some(c)), c.at, 1);
    var why := if m.status == PendingPayment then Paid(Some(c), base, 1) else Renewed(c, base);
    UniqueWith(st.rows, k, row);
    var t := CreditCharge(st, c, 0, {});
    assert t.effects == [e] + [Save(k, row, why), Enable(m.login)];
    ReplayConcat(st, [e], [Save(k, row, why), Enable(m.login)]);
    ReplayOne(st, e);
    ReplayTwo(Apply(st, e), Save(k, row, why), Enable(m.login));
  }
}
