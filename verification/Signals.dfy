/** Payment signals of a gateway with sessions: the webhook and the reconciler that asks for every pending row. */
module Signals {
  import opened Calendar
  import opened Domain
  import opened Lifecycle
  import opened PollSteps
  import opened Legality
  import opened Gift
  import opened Access

  /** The row a payment signal leaves: of an account-bound row, a month on its account's subscription. */
  function PaidRow(st: State, m: Mailbox, now: Time): Mailbox {
    if m.status == Active then m
    else
      var until := if m.accountId == "" then m.expiresAt
                   else if m.accountId in st.accounts then st.accounts[m.accountId]
                   else None;
      var base := if until.Some? && until.value > now then until.value else now;
      var months := if m.accountId == "" && m.grantedMonths > 0 then m.grantedMonths else 1;
      m.(status := Active, paidAt := Some(now), expiresAt := Some(AddMonths(base, months)))
  }

  /** A row that a signal can pay: not one whose account is unknown. */
  predicate Payable(st: State, m: Mailbox) {
    m.status == Active || m.KeyBound() || m.accountId in st.accounts
  }

  /** The ports that come before the first write of a signal. */
  predicate SignalStops(m: Mailbox, i: nat, faults: Faults) {
    || Call(Relookup, i) in faults
    || (m.status != Active && !m.KeyBound() && (Call(AccountRead, i) in faults || Call(AccountWrite, i) in faults))
  }

  /**
   * A signal pays the one row of its session, unless it is active, together
   * with the row's account, and then enables the login. Without failures it
   * fails exactly for an inactive row of an unknown account. It changes nothing
   * then, nor when it stops before its first write; later failures leave the
   * rest undone.
   */
  lemma SignalPays(st: State, k: nat, now: Time, i: nat, faults: Faults)
    requires UniqueRows(st.rows) && !st.freeMode && k < |st.rows| && st.rows[k].session != ""
    ensures var m := st.rows[k];
            var t := MarkPaid(st, m.session, None, now, i, faults);
            var after := Replay(st, t.effects);
            if !Payable(st, m) || SignalStops(m, i, faults) then !t.ok && after == st
            else if m.status == Active then
              && (t.ok <==> Call(Provision, i) !in faults)
              && after == if t.ok then st.(enabled := st.enabled[m.login := true]) else st
            else Access.PaidUpTo(st, after, k, PaidRow(st, m, now), i, faults, t.ok)
  {
    hide AddMonths; hide UniqueRows; hide Find; hide Replay; hide AndThen; hide Update; hide Access.PaidUpTo;
    var m := st.rows[k];
    var row := PaidRow(st, m, now);
    FindUnique(st.rows, BySession(m.session), k);
    UniqueWith(st.rows, k, row);
    ReplayNothing(st);
    ReplayOne(st, Enable(m.login));
    if m.status != Active && m.KeyBound() {
      SavedAndEnabled(st, k, row, Why.Paid(None, Later(now, m.expiresAt), MonthsGranted(m)), i, faults);
    } else if m.status != Active && m.accountId in st.accounts {
      ExtendedAndSaved(st, k, row, Why.Paid(None, Later(now, st.accounts[m.accountId]), 1), i, faults);
    }
  }

  /** A signal for a pending key-bound row, without failures. */
  lemma SignalPaysKey(st: State, k: nat, now: Time, i: nat)
    requires UniqueRows(st.rows) && !st.freeMode && k < |st.rows| && st.rows[k].session != ""
    requires st.rows[k].status == PendingPayment && st.rows[k].KeyBound()
    ensures var after := Replay(st, MarkPaid(st, st.rows[k].session, None, now, i, {}).effects);
            && k < |after.rows| && after.rows[k] == PaidRow(st, st.rows[k], now)
            && IsEnabled(after, st.rows[k].login)
  {
    hide AddMonths; hide UniqueRows; hide MarkPaid; hide Replay;
    SignalPays(st, k, now, i, {});
  }

  /** The gateway says that the row's session was paid. */
  predicate Confirmed(st: State, m: Mailbox, replies: map<string, SessionReply>) {
    && m.session != "" && !st.cfg.openCollective && m.session in replies
    && (replies[m.session].Confirmed? || replies[m.session].Succeeded?)
  }

  lemma ConfirmedBy(st: State, m: Mailbox, replies: map<string, SessionReply>)
    ensures var reply := SessionStatus(st.cfg, m.session, replies);
            Confirmed(st, m, replies) <==> m.session != "" && (reply.Confirmed? || reply.Succeeded?)
  {
  }

  lemma KeyBoundPaidAlike(st: State, mid: State, m: Mailbox, now: Time)
    requires m.KeyBound()
    ensures PaidRow(mid, m, now) == PaidRow(st, m, now)
  {
    hide AddMonths;
  }

  /**
   * After the first n listed rows: the key-bound ones that are confirmed are
   * paid and enabled, the others as before.
   */
  ghost predicate ListedPaid(st: State, after: State, listed: seq<nat>, n: nat, now: Time,
                           replies: map<string, SessionReply>)
    requires n <= |listed|
  {
    && |after.rows| == |st.rows| && after.freeMode == st.freeMode
    && forall j :: 0 <= j < |st.rows| && st.rows[j].KeyBound() ==>
         if j in listed[..n] && Confirmed(st, st.rows[j], replies)
         then after.rows[j] == PaidRow(st, st.rows[j], now) &&
             IsEnabled(after, st.rows[j].login)
         else after.rows[j] == st.rows[j]
  }

  /** A signal changes no row but its own, and disables no login. */
  ghost predicate Aside(st: State, after: State, k: nat) {
    && k < |st.rows| == |after.rows| && after.rows == st.rows[k := after.rows[k]]
    && forall login :: IsEnabled(st, login) ==> IsEnabled(after, login)
  }

  lemma SignalAside(st: State, k: nat, now: Time, i: nat)
    requires UniqueRows(st.rows) && k < |st.rows| && st.rows[k].session != "" && st.rows[k].status == PendingPayment
    ensures Aside(st, Replay(st, MarkPaid(st, st.rows[k].session, None, now, i, {}).effects), k)
  {
    hide MarkPaid;
    var t := MarkPaid(st, st.rows[k].session, None, now, i, {});
    MarkPaidPays(st, k, now, i, {});
    SignalEnables(st, st.rows[k].session, now, i);
    KeepsEnabled(st, t.effects);
  }

  lemma SignalEnables(st: State, session: string, now: Time, i: nat)
    ensures forall e :: e in MarkPaid(st, session, None, now, i, {}).effects ==> !e.Disable?
  {
    hide AddMonths; hide UniqueRows; hide Find;
  }

  lemma {:induction false} KeepsEnabled(st: State, effects: seq<Effect>)
    requires forall e :: e in effects ==> !e.Disable?
    ensures forall login :: IsEnabled(st, login) ==> IsEnabled(Replay(st, effects), login)
    decreases |effects|
  {
    if effects != [] {
      KeepsEnabled(st, effects[..|effects| - 1]);
      assert effects[|effects| - 1] in effects;
    }
  }

  lemma PaidOneMore(st: State, mid: State, after: State, listed: seq<nat>, n: nat, now: Time,
                    replies: map<string, SessionReply>)
    requires 0 < n <= |listed| && ListedPaid(st, mid, listed, n - 1, now, replies) && Increasing(listed)
    requires var k := listed[n - 1];
             && k < |st.rows| && after.freeMode == mid.freeMode
             && if Confirmed(st, st.rows[k], replies)
                then Aside(mid, after, k) && (st.rows[k].KeyBound() ==>
                       after.rows[k] == PaidRow(st, st.rows[k], now) &&
                           IsEnabled(after, st.rows[k].login))
                else after == mid
    ensures ListedPaid(st, after, listed, n, now, replies)
  {
    hide AddMonths; hide Confirmed; hide IsEnabled;
    assert listed[..n] == listed[..n - 1] + [listed[n - 1]];
  }

  lemma {:induction false} PendingPaidUpTo(st: State, listed: seq<nat>, n: nat, now: Time,
                                           replies: map<string, SessionReply>)
    requires Consistent(st) && !st.freeMode && n <= |listed| && Increasing(listed)
    requires forall i :: 0 <= i < |listed| ==> listed[i] < |st.rows| && st.rows[listed[i]].status == PendingPayment
    ensures ListedPaid(st, Replay(st, PendingPrefix(st, listed, n, now, replies, {}).effects), listed, n, now, replies)
  {
    hide MarkPaid; hide SessionStatus; hide ListedPaid; hide Replay; hide Consistent; hide Aside; hide PaidRow;
    hide Confirmed;
    if n == 0 {
      ReplayNothing(st);
      NonePaid(st, listed, now, replies);
    } else {
      PendingPaidUpTo(st, listed, n - 1, now, replies);
      PendingPays(st, listed, n - 1, now, replies, {});
      PendingPrefixLegal(st, listed, n - 1, now, replies, {});
      var before := PendingPrefix(st, listed, n - 1, now, replies, {});
      var mid := Replay(st, before.effects);
      RunKeepsConsistent(st, before.effects);
      ConsistentUnique(mid);
      PaidKeepsMode(st, mid, listed, n - 1, now, replies);
      var k := listed[n - 1];
      var step := MarkPaid(mid, st.rows[k].session, None, now, n - 1, {});
      ConfirmedBy(st, st.rows[k], replies);
      if Confirmed(st, st.rows[k], replies) {
        SignalAside(mid, k, now, n - 1);
        MarkPaidQuiet(mid, st.rows[k].session, None, now, n - 1, {});
        ModeKept(mid, step.effects);
        ReplayConcat(st, before.effects, step.effects);
        if st.rows[k].KeyBound() {
          SignalPaysKey(mid, k, now, n - 1);
          KeyBoundPaidAlike(st, mid, st.rows[k], now);
        }
      }
      PaidOneMore(st, mid, Replay(st, PendingPrefix(st, listed, n, now, replies, {}).effects), listed, n, now, replies);
    }
  }

  lemma NonePaid(st: State, listed: seq<nat>, now: Time, replies: map<string, SessionReply>)
    ensures ListedPaid(st, st, listed, 0, now, replies)
  {
  }

  lemma PaidKeepsMode(st: State, mid: State, listed: seq<nat>, n: nat, now: Time, replies: map<string, SessionReply>)
    requires n <= |listed| && ListedPaid(st, mid, listed, n, now, replies)
    ensures mid.freeMode == st.freeMode && |mid.rows| == |st.rows|
  {
  }

  /**
   * Without failures ReconcilePendingPayments pays and enables exactly the
   * key-bound rows that are pending and whose session the gateway confirms.
   */
  lemma PendingReconciled(st: State, now: Time, replies: map<string, SessionReply>)
    requires Consistent(st) && !st.freeMode
    ensures var t := ReconcilePending(st, now, replies, {});
            var after := Replay(st, t.effects);
            && t.ok && |after.rows| == |st.rows|
            && forall j :: 0 <= j < |st.rows| && st.rows[j].KeyBound() ==>
                 if st.rows[j].status == PendingPayment && Confirmed(st, st.rows[j], replies)
                 then after.rows[j] == PaidRow(st, st.rows[j], now) &&
                     IsEnabled(after, st.rows[j].login)
                 else after.rows[j] == st.rows[j]
  {
    hide PendingPrefix; hide Confirmed; hide PaidRow; hide IsEnabled; hide Consistent; hide Replay;
    var listed := Select(st.rows, PendingRows);
    PendingPaidUpTo(st, listed, |listed|, now, replies);
    PendingGoesOn(st, listed, |listed|, now, replies, {});
    assert listed[..|listed|] == listed;
  }

  /** A payment that fails does not end the call. */
  lemma {:induction false} PendingGoesOn(st: State, listed: seq<nat>, n: nat, now: Time,
                                         replies: map<string, SessionReply>, faults: Faults)
    requires n <= |listed| && forall i :: 0 <= i < |listed| ==> listed[i] < |st.rows|
    ensures PendingPrefix(st, listed, n, now, replies, faults).ok
  {
    hide MarkPaid; hide SessionStatus; hide Replay;
    if n > 0 {
      PendingGoesOn(st, listed, n - 1, now, replies, faults);
    }
  }

  // ---------- what the reconciler reports ----------

  function CountPaid(results: seq<ReconcileResult>): nat
    decreases |results|
  {
    if results == [] then 0
    else CountPaid(results[..|results| - 1]) + (if results[|results| - 1].deed == PaidFor then 1 else 0)
  }

  /**
   * The result of a listed row: its own, what the gateway says of its session,
   * and a payment, made or failed, of exactly what is confirmed.
   */
  ghost predicate Tells(st: State, m: Mailbox, result: ReconcileResult, replies: map<string, SessionReply>,
                        gatewayFailed: bool) {
    && result.id == m.id && result.session == m.session
    && result.learnt == (if m.session == "" then NoSession
                         else if gatewayFailed then CheckFailed
                         else if st.cfg.openCollective then (if "tva-" <= m.session then Checked(Open) else CheckFailed)
                         else if m.session in replies && replies[m.session] !in {Unknown, GatewayError}
                         then Checked(replies[m.session])
                         else CheckFailed)
    && (result.deed == Skipped <==> !result.learnt.Checked?)
    && (result.deed == PaidFor || result.deed == PayingFailed <==> !gatewayFailed && Confirmed(st, m, replies))
  }

  /** The result of one more row, and the payment it counts. */
  lemma ResultsStep(st: State, listed: seq<nat>, n: nat, now: Time, replies: map<string, SessionReply>, faults: Faults)
      returns (result: ReconcileResult)
    requires 0 < n <= |listed| && forall i :: 0 <= i < |listed| ==> listed[i] < |st.rows|
    ensures PendingResults(st, listed, n, now, replies, faults)
        == PendingResults(st, listed, n - 1, now, replies, faults) + [result]
    ensures PendingPrefix(st, listed, n, now, replies, faults).count ==
              PendingPrefix(st, listed, n - 1, now, replies, faults).count + (if result.deed == PaidFor then 1 else 0)
    ensures Tells(st, st.rows[listed[n - 1]], result, replies, Call(Gateway, n - 1) in faults)
  {
    hide MarkPaid; hide SessionStatus; hide Replay; hide Tells; hide ResultFor;
    var m := st.rows[listed[n - 1]];
    var mid := Replay(st, PendingPrefix(st, listed, n - 1, now, replies, faults).effects);
    var paid := MarkPaid(mid, m.session, None, now, n - 1, faults).ok;
    ResultTells(st, m, Call(Gateway, n - 1) in faults, replies, paid);
    result := ResultFor(m, Call(Gateway, n - 1) in faults, SessionStatus(st.cfg, m.session, replies), paid);
  }

  ghost predicate AllTell(st: State, listed: seq<nat>, results: seq<ReconcileResult>,
                          replies: map<string, SessionReply>, faults: Faults)
    requires |results| <= |listed| && forall i :: 0 <= i < |listed| ==> listed[i] < |st.rows|
  {
    forall i :: 0 <= i < |results| ==> Tells(st, st.rows[listed[i]], results[i], replies, Call(Gateway, i) in faults)
  }

  lemma OneMoreTells(st: State, listed: seq<nat>, results: seq<ReconcileResult>, result: ReconcileResult,
                     replies: map<string, SessionReply>, faults: Faults)
    requires |results| < |listed| && forall i :: 0 <= i < |listed| ==> listed[i] < |st.rows|
    requires AllTell(st, listed, results, replies, faults)
    requires Tells(st, st.rows[listed[|results|]], result, replies, Call(Gateway, |results|) in faults)
    ensures AllTell(st, listed, results + [result], replies, faults)
  {
    hide Tells;
    var all := results + [result];
    forall i | 0 <= i < |all| ensures Tells(st, st.rows[listed[i]], all[i], replies, Call(Gateway, i) in faults) {
      assert i < |results| ==> all[i] == results[i];
    }
  }

  lemma OneMoreCounts(results: seq<ReconcileResult>, result: ReconcileResult)
    ensures CountPaid(results + [result]) == CountPaid(results) + (if result.deed == PaidFor then 1 else 0)
  {
    assert (results + [result])[..|results|] == results;
  }

  lemma {:induction false} ResultsTell(st: State, listed: seq<nat>, n: nat, now: Time,
                                       replies: map<string, SessionReply>, faults: Faults)
    requires n <= |listed| && forall i :: 0 <= i < |listed| ==> listed[i] < |st.rows|
    ensures AllTell(st, listed, PendingResults(st, listed, n, now, replies, faults), replies, faults)
    ensures CountPaid(PendingResults(st, listed, n, now, replies, faults))
        == PendingPrefix(st, listed, n, now, replies, faults).count
  {
    hide PendingResults; hide PendingPrefix; hide Tells; hide AllTell; hide CountPaid;
    if n == 0 {
      NoResults(st, listed, now, replies, faults);
    } else {
      ResultsTell(st, listed, n - 1, now, replies, faults);
      var result := ResultsStep(st, listed, n, now, replies, faults);
      var before := PendingResults(st, listed, n - 1, now, replies, faults);
      OneMoreTells(st, listed, before, result, replies, faults);
      OneMoreCounts(before, result);
    }
  }

  lemma NoResults(st: State, listed: seq<nat>, now: Time, replies: map<string, SessionReply>, faults: Faults)
    requires forall i :: 0 <= i < |listed| ==> listed[i] < |st.rows|
    ensures PendingResults(st, listed, 0, now, replies, faults) == [] && AllTell(st, listed, [], replies, faults)
    ensures PendingPrefix(st, listed, 0, now, replies, faults).count == 0 && CountPaid([]) == 0
  {
  }

  lemma ResultTells(st: State, m: Mailbox, gatewayFailed: bool, replies: map<string, SessionReply>, paid: bool)
    ensures var reply := SessionStatus(st.cfg, m.session, replies);
            var result := ResultFor(m, gatewayFailed, reply, paid);
            && Tells(st, m, result, replies, gatewayFailed)
            && (result.deed == PaidFor <==>
                  m.session != "" && !gatewayFailed && (reply.Confirmed? || reply.Succeeded?) && paid)
  {
    ConfirmedBy(st, m, replies);
  }

  /**
   * The report has one result for each pending row in table order, says of
   * each whether its session was confirmed and a payment tried, and counts as
   * many payments as were made.
   */
  lemma ReportTells(st: State, now: Time, replies: map<string, SessionReply>, faults: Faults)
    requires !st.freeMode && Call(Listing, 0) !in faults
    ensures var listed := Select(st.rows, PendingRows);
            var results := PendingReport(st, now, replies, faults);
            && |results| == |listed|
            && AllTell(st, listed, results, replies, faults)
            && CountPaid(results) == ReconcilePending(st, now, replies, faults).count
            && ReconcilePending(st, now, replies, faults).ok
  {
    var listed := Select(st.rows, PendingRows);
    PendingGoesOn(st, listed, |listed|, now, replies, faults);
    ResultsTell(st, listed, |listed|, now, replies, faults);
  }
}
