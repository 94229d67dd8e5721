/** Sweeps and switchovers that fail part-way and are run again converge. */
module Retries {
  import opened Calendar
  import opened Domain
  import opened Lifecycle
  import opened Legality
  import opened CallLegality

  // ---------- sweeps ----------

  datatype SweepRun = SweepRun(now: Time, faults: Faults)

  function AfterSweeps(st: State, runs: seq<SweepRun>): State
    decreases |runs|
  {
    if runs == [] then st
    else
      var before := AfterSweeps(st, runs[..|runs| - 1]);
      var last := runs[|runs| - 1];
      Replay(before, Sweep(before, last.now, last.faults).effects)
  }

  /** What the sweeps returned, failed ones included, added up. */
  function SweepCounts(st: State, runs: seq<SweepRun>): nat
    decreases |runs|
  {
    if runs == [] then 0
    else
      var before := AfterSweeps(st, runs[..|runs| - 1]);
      var last := runs[|runs| - 1];
      SweepCounts(st, runs[..|runs| - 1]) + Sweep(before, last.now, last.faults).count
  }

  function CountExpired(rows: seq<Mailbox>): nat
    decreases |rows|
  {
    if rows == [] then 0
    else CountExpired(rows[..|rows| - 1]) + (if rows[|rows| - 1].status == Expired then 1 else 0)
  }

  /** A row swept by `now`: untouched, or due by then and now expired. */
  ghost predicate SweptBy(m: Mailbox, row: Mailbox, now: Time) {
    row == m || (Selected(m, ActiveDue(now)) && row == m.(status := Expired))
  }

  lemma {:induction false} CountUpdate(rows: seq<Mailbox>, k: nat, row: Mailbox)
    requires k < |rows| && rows[k].status != Expired && row.status == Expired
    ensures CountExpired(rows[k := row]) == CountExpired(rows) + 1
    decreases |rows|
  {
    var n := |rows| - 1;
    var after := rows[k := row];
    if k < n {
      assert after[..n] == rows[..n][k := row];
      CountUpdate(rows[..n], k, row);
    } else {
      assert after[..n] == rows[..n];
    }
  }

  lemma {:induction false} SweptCount(rows: seq<Mailbox>, due: seq<nat>, n: nat)
    requires n <= |due| && Increasing(due)
    requires forall i :: 0 <= i < |due| ==> due[i] < |rows| && rows[due[i]].status == Active
    ensures CountExpired(Swept(rows, due, n)) == CountExpired(rows) + n
  {
    if n > 0 {
      SweptCount(rows, due, n - 1);
      SweptRow(rows, due, n - 1, due[n - 1]);
      CountUpdate(Swept(rows, due, n - 1), due[n - 1], rows[due[n - 1]].(status := Expired));
    }
  }

  /** One sweep, failed or not: it expires due rows only, as many as it says, and all of them when it succeeds. */
  lemma SweepOnce(st: State, now: Time, faults: Faults)
    requires !st.freeMode
    ensures var t := Sweep(st, now, faults);
            var after := Replay(st, t.effects);
            && !after.freeMode && |after.rows| == |st.rows|
            && (forall k :: 0 <= k < |st.rows| ==> SweptBy(st.rows[k], after.rows[k], now))
            && (t.ok ==> forall k :: 0 <= k < |st.rows| ==> !Selected(after.rows[k], ActiveDue(now)))
            && CountExpired(after.rows) == CountExpired(st.rows) + t.count
  {
    hide SweepPrefix; hide CountExpired;
    var due := Select(st.rows, ActiveDue(now));
    var t := Sweep(st, now, faults);
    if Call(Listing, 0) !in faults {
      SweepRows(st, due, |due|, faults);
      SweepQuiet(st, due, |due|, faults);
      ModeKept(st, t.effects);
      SweptCount(st.rows, due, t.count);
      forall k | 0 <= k < |st.rows|
        ensures SweptBy(st.rows[k], Replay(st, t.effects).rows[k], now)
        ensures t.ok ==> !Selected(Replay(st, t.effects).rows[k], ActiveDue(now))
      {
        SweptRow(st.rows, due, t.count, k);
        assert due[..|due|] == due;
      }
    }
  }

  /** No failure meets the i-th row of a sweep. */
  predicate Sweepable(i: nat, faults: Faults) {
    Call(Provision, i) !in faults && Call(RowWrite, i) !in faults
  }

  /** A sweep succeeds exactly if no due row meets a failure; otherwise it stops at the first that does. */
  lemma SweepStopsExactly(st: State, now: Time, faults: Faults)
    requires Consistent(st) && !st.freeMode && Call(Listing, 0) !in faults
    ensures var t := Sweep(st, now, faults);
            var due := Select(st.rows, ActiveDue(now));
            && t.count <= |due| && (t.ok <==> t.count == |due|)
            && (forall i: nat :: i < t.count ==> Sweepable(i, faults))
            && (t.count < |due| ==> !Sweepable(t.count, faults))
  {
    var due := Select(st.rows, ActiveDue(now));
    SweepGoesOn(st, due, |due|, now, faults);
  }

  lemma {:induction false} SweepGoesOn(st: State, due: seq<nat>, n: nat, now: Time, faults: Faults)
    requires Consistent(st) && !st.freeMode && n <= |due| && Increasing(due)
    requires forall i :: 0 <= i < |due| ==> due[i] < |st.rows| && Selected(st.rows[due[i]], ActiveDue(now))
    ensures var t := SweepPrefix(st, due, n, faults);
            && t.count <= n && (t.ok <==> t.count == n)
            && (forall i: nat :: i < t.count ==> Sweepable(i, faults))
            && (t.count < n ==> !Sweepable(t.count, faults))
  {
    hide Consistent; hide Replay; hide UniqueRows; hide Expire; hide Sweepable;
    if n > 0 {
      SweepGoesOn(st, due, n - 1, now, faults);
      var before := SweepPrefix(st, due, n - 1, faults);
      if before.ok {
        var mid := Replay(st, before.effects);
        SweepPrefixLegal(st, due, n - 1, now, faults);
        RunKeepsConsistent(st, before.effects);
        ConsistentUnique(mid);
        SweepRows(st, due, n - 1, faults);
        SweptRow(st.rows, due, n - 1, due[n - 1]);
        assert due[n - 1] !in due[..n - 1];
        ExpireSucceeds(mid, due[n - 1], n - 1, faults);
      }
    }
  }

  lemma ExpireSucceeds(st: State, k: nat, i: nat, faults: Faults)
    requires UniqueRows(st.rows) && k < |st.rows|
    ensures Expire(st, k, st.rows[k], Lapsed, i, faults).ok <==> Sweepable(i, faults)
  {
    hide UniqueRows;
    UniqueWith(st.rows, k, st.rows[k].(status := Expired));
  }

  lemma {:induction false} SweepsSoFar(st: State, runs: seq<SweepRun>, now: Time)
    requires !st.freeMode && forall i :: 0 <= i < |runs| ==> runs[i].now <= now
    ensures var after := AfterSweeps(st, runs);
            && !after.freeMode && |after.rows| == |st.rows|
            && (forall k :: 0 <= k < |st.rows| ==> SweptBy(st.rows[k], after.rows[k], now))
            && CountExpired(after.rows) == CountExpired(st.rows) + SweepCounts(st, runs)
    decreases |runs|
  {
    hide Sweep; hide CountExpired;
    if runs != [] {
      var before := AfterSweeps(st, runs[..|runs| - 1]);
      SweepsSoFar(st, runs[..|runs| - 1], now);
      SweepOnce(before, runs[|runs| - 1].now, runs[|runs| - 1].faults);
    }
  }

  /**
   * After any number of sweeps that failed anywhere, one successful sweep
   * leaves expired exactly the rows that were expired before and the rows that
   * are due, all others as they were; the counts add up to the rows flipped.
   */
  lemma SweepsConverge(st: State, runs: seq<SweepRun>, now: Time, faults: Faults)
    requires !st.freeMode && forall i :: 0 <= i < |runs| ==> runs[i].now <= now
    requires Sweep(AfterSweeps(st, runs), now, faults).ok
    ensures var all := runs + [SweepRun(now, faults)];
            var after := AfterSweeps(st, all);
            && |after.rows| == |st.rows|
            && (forall k :: 0 <= k < |st.rows| ==>
                  after.rows[k] == if Selected(st.rows[k], ActiveDue(now)) then st.rows[k].(status := Expired)
                                   else st.rows[k])
            && CountExpired(after.rows) == CountExpired(st.rows) + SweepCounts(st, all)
  {
    hide Sweep; hide CountExpired; hide SweepCounts;
    var all := runs + [SweepRun(now, faults)];
    assert all[..|all| - 1] == runs;
    SweepsSoFar(st, all, now);
    SweepsSoFar(st, runs, now);
    SweepOnce(AfterSweeps(st, runs), now, faults);
  }

  // ---------- switchovers ----------

  datatype SwitchRun = SwitchRun(tokens: seq<string>, now: Time, faults: Faults)

  function AfterSwitches(st: State, runs: seq<SwitchRun>): State
    decreases |runs|
  {
    if runs == [] then st
    else
      var before := AfterSwitches(st, runs[..|runs| - 1]);
      var last := runs[|runs| - 1];
      if |last.tokens| < |before.rows| then before
      else Replay(before, Switchover(before, last.tokens, last.now, last.faults).effects)
  }

  /** The conversions the switchovers reported, added up. */
  function Converted(st: State, runs: seq<SwitchRun>): nat
    decreases |runs|
  {
    if runs == [] then 0
    else
      var before := AfterSwitches(st, runs[..|runs| - 1]);
      var last := runs[|runs| - 1];
      Converted(st, runs[..|runs| - 1])
        + (if |last.tokens| < |before.rows| then 0 else Switchover(before, last.tokens, last.now, last.faults).count)
  }

  /** Pending, and without a token that is still good. */
  predicate NeedsToken(m: Mailbox, now: Time) {
    m.status == PendingPayment &&
    (m.tokenHash == "" || m.tokenExpiresAt.None? || m.tokenExpiresAt.value <= now)
  }

  function CountNeeding(rows: seq<Mailbox>, now: Time): nat
    decreases |rows|
  {
    if rows == [] then 0
    else CountNeeding(rows[..|rows| - 1], now) + (if NeedsToken(rows[|rows| - 1], now) then 1 else 0)
  }

  /** The rows tokens are compared at: no pending row's token runs out between the two times. */
  ghost predicate TokensLast(rows: seq<Mailbox>, first: Time, last: Time) {
    forall k :: 0 <= k < |rows| && NeedsToken(rows[k], last) ==> NeedsToken(rows[k], first)
  }

  /** A row through one switchover. */
  ghost predicate SwitchStep(m: Mailbox, row: Mailbox, tokens: seq<string>, now: Time, last: Time) {
    || row == m
    || (m.status == Active && row == m.(expiresAt := None))
    || (NeedsToken(m, last) && exists j :: 0 <= j < |tokens| && row == WithToken(m, tokens[j], now))
  }

  /** When the times of runs stay within a token's lifetime. */
  predicate Within(now: Time, first: Time, last: Time) {
    first <= now <= last < first + ACTIVATION_TTL
  }

  lemma NeedsBetween(rows: seq<Mailbox>, k: nat, now: Time, first: Time, last: Time)
    requires k < |rows| && TokensLast(rows, first, last) && Within(now, first, last)
    ensures NeedsToken(rows[k], now) <==> NeedsToken(rows[k], last)
  {
  }

  lemma {:induction false} CountSame(a: seq<Mailbox>, b: seq<Mailbox>, now: Time)
    requires |a| == |b| && forall k :: 0 <= k < |a| ==> (NeedsToken(a[k], now) <==> NeedsToken(b[k], now))
    ensures CountNeeding(a, now) == CountNeeding(b, now)
    decreases |a|
  {
    if a != [] {
      CountSame(a[..|a| - 1], b[..|b| - 1], now);
    }
  }

  lemma {:induction false} CountServed(rows: seq<Mailbox>, k: nat, row: Mailbox, now: Time)
    requires k < |rows| && NeedsToken(rows[k], now) && !NeedsToken(row, now)
    ensures CountNeeding(rows[k := row], now) + 1 == CountNeeding(rows, now)
    decreases |rows|
  {
    hide NeedsToken;
    var n := |rows| - 1;
    var after := rows[k := row];
    if k < n {
      assert after[..n] == rows[..n][k := row];
      CountServed(rows[..n], k, row, now);
    } else {
      assert after[..n] == rows[..n];
    }
  }

  /** Each token issued serves one row that needed it. */
  lemma {:induction false} TokenedCount(rows: seq<Mailbox>, listed: seq<nat>, p: nat, tokens: seq<string>, now: Time,
                                        first: Time, last: Time)
    requires p <= |listed| <= |tokens| && Increasing(listed) && Within(now, first, last)
    requires TokensLast(rows, first, last)
    requires forall i :: 0 <= i < |tokens| ==> tokens[i] != ""
    requires forall i :: 0 <= i < |listed| ==> listed[i] < |rows| && rows[listed[i]].status == PendingPayment
    ensures CountNeeding(WithTokens(rows, listed, p, tokens, now), last) + Needing(rows, listed, p, now)
        == CountNeeding(rows, last)
  {
    hide CountNeeding; hide TokensLast;
    if p > 0 {
      TokenedCount(rows, listed, p - 1, tokens, now, first, last);
      var k := listed[p - 1];
      var m := rows[k];
      if !HasValidToken(m, now) {
        var before := WithTokens(rows, listed, p - 1, tokens, now);
        TokenedRow(rows, listed, p - 1, tokens, now, k);
        NeedsBetween(rows, k, now, first, last);
        CountServed(before, k, WithToken(m, tokens[p - 1], now), last);
      }
    }
  }

  lemma StartSame(rows: seq<Mailbox>, start: seq<Mailbox>, first: Time, last: Time)
    requires start == rows || start == ClearedExpiries(rows)
    requires TokensLast(rows, first, last)
    ensures TokensLast(start, first, last)
    ensures forall k :: 0 <= k < |rows| ==> (NeedsToken(start[k], last) <==> NeedsToken(rows[k], last))
  {
  }

  lemma ServedRow(m: Mailbox, row: Mailbox, tokens: seq<string>, i: nat, now: Time, last: Time)
    requires row == m || (row == m.(expiresAt := None) && m.status == Active)
    requires row.status == PendingPayment && !HasValidToken(row, now) &&
        (NeedsToken(row, now) <==> NeedsToken(row, last))
    requires i < |tokens| && tokens[i] != "" && now <= last < now + ACTIVATION_TTL
    ensures SwitchStep(m, WithToken(row, tokens[i], now), tokens, now, last)
    ensures !NeedsToken(WithToken(row, tokens[i], now), last)
  {
  }

  lemma KeptRow(rows: seq<Mailbox>, start: seq<Mailbox>, listed: seq<nat>, p: nat, tokens: seq<string>, k: nat,
                now: Time, first: Time, last: Time)
    requires start == rows || start == ClearedExpiries(rows)
    requires listed == Select(start, PendingRows) && p <= |listed| && k < |rows|
    requires !(k in listed[..p] && !HasValidToken(start[k], now))
    requires Within(now, first, last) && TokensLast(start, first, last)
    ensures SwitchStep(rows[k], start[k], tokens, now, last)
    ensures NeedsToken(start[k], last) ==> NeedsToken(start[k], first)
    ensures p == |listed| ==> !NeedsToken(start[k], last)
  {
    NeedsBetween(start, k, now, first, last);
    assert listed[..|listed|] == listed;
  }

  lemma KeptTokens(rows: seq<Mailbox>, first: Time, last: Time)
    requires forall k :: 0 <= k < |rows| && NeedsToken(rows[k], last) ==> NeedsToken(rows[k], first)
    ensures TokensLast(rows, first, last)
  {
  }

  lemma SwitchedRow(rows: seq<Mailbox>, start: seq<Mailbox>, listed: seq<nat>, p: nat, tokens: seq<string>, k: nat,
                    now: Time, first: Time, last: Time)
    requires start == rows || start == ClearedExpiries(rows)
    requires listed == Select(start, PendingRows) && p <= |listed| <= |tokens| && k < |rows|
    requires Within(now, first, last) && TokensLast(start, first, last)
    requires forall i :: 0 <= i < |tokens| ==> tokens[i] != ""
    ensures var after := WithTokens(start, listed, p, tokens, now);
            && SwitchStep(rows[k], after[k], tokens, now, last)
            && (NeedsToken(after[k], last) ==> NeedsToken(after[k], first))
            && (p == |listed| ==> !NeedsToken(after[k], last))
  {
    hide WithTokens; hide NeedsToken; hide SwitchStep; hide TokensLast; hide HasValidToken; hide WithToken;
    TokenedRow(start, listed, p, tokens, now, k);
    NeedsBetween(start, k, now, first, last);
    if k in listed[..p] && !HasValidToken(start[k], now) {
      var i :| 0 <= i < p && listed[i] == k;
      ServedRow(rows[k], start[k], tokens, i, now, last);
    } else {
      KeptRow(rows, start, listed, p, tokens, k, now, first, last);
    }
  }

  /** A switchover up to its p-th listed row, from a table whose expiries were cleared or not. */
  lemma SwitchedStep(rows: seq<Mailbox>, start: seq<Mailbox>, listed: seq<nat>, p: nat, tokens: seq<string>,
                     now: Time, first: Time, last: Time)
    requires start == rows || start == ClearedExpiries(rows)
    requires listed == Select(start, PendingRows) && p <= |listed| <= |tokens|
    requires Within(now, first, last) && TokensLast(rows, first, last)
    requires forall i :: 0 <= i < |tokens| ==> tokens[i] != ""
    ensures var after := WithTokens(start, listed, p, tokens, now);
            && (forall k :: 0 <= k < |rows| ==> SwitchStep(rows[k], after[k], tokens, now, last))
            && TokensLast(after, first, last)
            && CountNeeding(after, last) + Needing(start, listed, p, now) == CountNeeding(rows, last)
            && (p == |listed| ==> forall k :: 0 <= k < |rows| ==> !NeedsToken(after[k], last))
  {
    hide CountNeeding; hide Needing; hide WithTokens; hide NeedsToken; hide SwitchStep; hide TokensLast;
    StartSame(rows, start, first, last);
    TokenedCount(start, listed, p, tokens, now, first, last);
    CountSame(start, rows, last);
    var after := WithTokens(start, listed, p, tokens, now);
    forall k | 0 <= k < |rows|
      ensures SwitchStep(rows[k], after[k], tokens, now, last)
      ensures NeedsToken(after[k], last) ==> NeedsToken(after[k], first)
      ensures p == |listed| ==> !NeedsToken(after[k], last)
    {
      SwitchedRow(rows, start, listed, p, tokens, k, now, first, last);
    }
    KeptTokens(after, first, last);
  }

  /** What the two bulk writes leave of the active rows and of the accounts. */
  ghost predicate BulkCleared(st: State, after: State, rowsToo: bool, accountsToo: bool) {
    && |after.rows| == |st.rows| && after.accounts.Keys == st.accounts.Keys
    && (forall k :: 0 <= k < |st.rows| && st.rows[k].status == Active ==>
          after.rows[k] == if rowsToo then st.rows[k].(expiresAt := None) else st.rows[k])
    && (forall a :: a in st.accounts ==>
          after.accounts[a] == if accountsToo then None else st.accounts[a])
  }

  lemma {:induction false} SavesKeepAccounts(st: State, effects: seq<Effect>)
    requires forall e :: e in effects ==> e.Save?
    ensures Replay(st, effects).accounts == st.accounts
    decreases |effects|
  {
    if effects != [] {
      assert effects[|effects| - 1] in effects;
      SavesKeepAccounts(st, effects[..|effects| - 1]);
    }
  }

  lemma {:induction false} SwitchSaves(st: State, listed: seq<nat>, n: nat, tokens: seq<string>, now: Time,
                                       faults: Faults)
    requires n <= |listed| <= |tokens| && forall i :: 0 <= i < |listed| ==> listed[i] < |st.rows|
    ensures forall e :: e in SwitchPrefix(st, listed, n, tokens, now, faults).effects ==> e.Save?
  {
    hide WithToken; hide HasValidToken; hide UniqueRows; hide Replay;
    if n > 0 {
      SwitchSaves(st, listed, n - 1, tokens, now, faults);
    }
  }

  /** The tokens of a switchover go to pending rows only. */
  lemma ActiveKept(rows: seq<Mailbox>, listed: seq<nat>, p: nat, tokens: seq<string>, now: Time)
    requires listed == Select(ClearedExpiries(rows), PendingRows) && p <= |listed| <= |tokens|
    ensures forall k :: 0 <= k < |rows| && rows[k].status == Active ==>
              WithTokens(ClearedExpiries(rows), listed, p, tokens, now)[k] == rows[k].(expiresAt := None)
  {
    hide WithTokens; hide Select; hide WithToken; hide HasValidToken;
    var start := ClearedExpiries(rows);
    forall k | 0 <= k < |rows| && rows[k].status == Active
      ensures WithTokens(start, listed, p, tokens, now)[k] == rows[k].(expiresAt := None)
    {
      TokenedRow(start, listed, p, tokens, now, k);
    }
  }

  /** The bulk writes of one switchover, wherever it stops. */
  lemma SwitchClears(st: State, tokens: seq<string>, now: Time, faults: Faults)
    requires st.freeMode && |tokens| >= |st.rows|
    ensures var rowsToo := Call(BulkWrite, 0) !in faults;
            BulkCleared(st, Replay(st, Switchover(st, tokens, now, faults).effects), rowsToo,
                        rowsToo && Call(BulkWrite, 1) !in faults)
  {
    hide SwitchPrefix; hide Replay; hide Select; hide WithTokens; hide Needing;
    ReplayNothing(st);
    var cleared := [ClearExpiries, ClearSubscriptions];
    ReplayOne(st, ClearExpiries);
    ReplayTwo(st, ClearExpiries, ClearSubscriptions);
    SwitchoverSizes(st, cleared);
    var st1 := Replay(st, cleared);
    var listed := Select(st1.rows, PendingRows);
    if Call(BulkWrite, 0) !in faults && Call(BulkWrite, 1) !in faults && Call(Listing, 0) !in faults {
      var rest := SwitchPrefix(st1, listed, |listed|, tokens, now, faults);
      var p := SwitchRows(st1, listed, |listed|, tokens, now, faults);
      SwitchSaves(st1, listed, |listed|, tokens, now, faults);
      SavesKeepAccounts(st1, rest.effects);
      ReplayConcat(st, cleared, rest.effects);
      ActiveKept(st.rows, listed, p, tokens, now);
    }
  }

  lemma SwitchOnce(st: State, tokens: seq<string>, now: Time, faults: Faults, first: Time, last: Time)
    requires st.freeMode && Answers(st, Switching(tokens, now, faults))
    requires Within(now, first, last) && TokensLast(st.rows, first, last)
    ensures var t := Switchover(st, tokens, now, faults);
            var after := Replay(st, t.effects);
            && after.freeMode && |after.rows| == |st.rows|
            && (forall k :: 0 <= k < |st.rows| ==> SwitchStep(st.rows[k], after.rows[k], tokens, now, last))
            && TokensLast(after.rows, first, last)
            && CountNeeding(after.rows, last) + t.count == CountNeeding(st.rows, last)
            && (t.ok ==> forall k :: 0 <= k < |st.rows| ==> !NeedsToken(after.rows[k], last))
            && BulkCleared(st, after, Call(BulkWrite, 0) !in faults,
                           Call(BulkWrite, 0) !in faults && Call(BulkWrite, 1) !in faults)
            && (t.ok ==> Call(BulkWrite, 0) !in faults && Call(BulkWrite, 1) !in faults)
  {
    hide SwitchPrefix; hide CountNeeding; hide TokensLast; hide SwitchStep; hide NeedsToken; hide Replay; hide Select;
    hide BulkCleared;
    SwitchClears(st, tokens, now, faults);
    ReplayNothing(st);
    var t := Switchover(st, tokens, now, faults);
    var cleared := [ClearExpiries, ClearSubscriptions];
    ReplayOne(st, ClearExpiries);
    ReplayTwo(st, ClearExpiries, ClearSubscriptions);
    ClearedLegal(st, cleared);
    var st1 := Replay(st, cleared);
    var listed := Select(st1.rows, PendingRows);
    var none := Select(st.rows, PendingRows);
    SelectSize(st.rows, PendingRows);
    if t.effects == [] {
      SwitchedStep(st.rows, st.rows, none, 0, tokens, now, first, last);
    } else if Call(BulkWrite, 1) in faults || Call(Listing, 0) in faults {
      SwitchedStep(st.rows, st1.rows, listed, 0, tokens, now, first, last);
    } else {
      var rest := SwitchPrefix(st1, listed, |listed|, tokens, now, faults);
      var p := SwitchRows(st1, listed, |listed|, tokens, now, faults);
      SwitchPrefixLegal(st1, listed, |listed|, tokens, now, faults);
      ReplayConcat(st, cleared, rest.effects);
      ModeKept(st1, rest.effects);
      SwitchedStep(st.rows, st1.rows, listed, p, tokens, now, first, last);
    }
  }

  /** The i-th pending row can get a token: links have an address, and nothing fails for the row. */
  predicate Sends(cfg: Config, i: nat, faults: Faults) {
    && cfg.publicBaseUrl != ""
    && Call(Token, i) !in faults && Call(Mail, i) !in faults && Call(RowWrite, i) !in faults
  }

  /** A row after a switchover that got a token to it, or did not. */
  function Served(m: Mailbox, token: string, now: Time, reached: bool): Mailbox {
    if !NeedsToken(m, now) || !reached then m
    else
      m.(tokenHash := token, tokenExpiresAt := Some(now + 24 * HOUR), status := PendingPayment,
         session := "", paymentUrl := "")
  }

  /** No row that needs a token stops the switchover up to and including the i-th pending one. */
  ghost predicate Reached(st: State, listed: seq<nat>, i: int, now: Time, faults: Faults)
    requires i < |listed| && forall j :: 0 <= j < |listed| ==> listed[j] < |st.rows|
  {
    forall j: nat :: j <= i && NeedsToken(st.rows[listed[j]], now) ==> Sends(st.cfg, j, faults)
  }

  /**
   * Which pending rows get a token from a switchover: those that need one, up
   * to the first that meets a failure. It succeeds exactly if none does.
   */
  lemma SwitchoverExactly(st: State, tokens: seq<string>, now: Time, faults: Faults)
    requires Consistent(st) && st.freeMode && Answers(st, Switching(tokens, now, faults))
    requires Call(BulkWrite, 0) !in faults && Call(BulkWrite, 1) !in faults && Call(Listing, 0) !in faults
    ensures var t := Switchover(st, tokens, now, faults);
            var after := Replay(st, t.effects);
            var listed := Select(st.rows, PendingRows);
            && |after.rows| == |st.rows| && |listed| <= |tokens|
            && (forall i :: 0 <= i < |listed| ==>
                  after.rows[listed[i]] ==
                    Served(st.rows[listed[i]], tokens[i], now, Reached(st, listed, i, now, faults)))
            && (t.ok <==> Reached(st, listed, |listed| - 1, now, faults))
  {
    hide Consistent; hide SwitchPrefix; hide Replay; hide Select; hide Switchover; hide NeedsToken; hide Served;
    hide ClearedExpiries; hide Reached;
    SelectSize(st.rows, PendingRows);
    ClearedPending(st.rows);
    var st1 := AfterBulkWrites(st, tokens, now, faults);
    var listed := Select(st.rows, PendingRows);
    PrefixExactly(st1, listed, tokens, now, faults);
    ReachedAlike(st, st1, listed, now, faults);
  }

  /** Past its bulk writes and its listing a switchover is the loop over the pending rows. */
  lemma AfterBulkWrites(st: State, tokens: seq<string>, now: Time, faults: Faults) returns (st1: State)
    requires Consistent(st) && st.freeMode && Answers(st, Switching(tokens, now, faults))
    requires Call(BulkWrite, 0) !in faults && Call(BulkWrite, 1) !in faults && Call(Listing, 0) !in faults
    ensures st1.rows == ClearedExpiries(st.rows) && st1.freeMode && st1.cfg == st.cfg && Consistent(st1)
    ensures var listed := Select(st1.rows, PendingRows);
            && |listed| <= |tokens|
            && var t, rest := Switchover(st, tokens, now, faults),
                              SwitchPrefix(st1, listed, |listed|, tokens, now, faults);
               t.ok == rest.ok && Replay(st, t.effects) == Replay(st1, rest.effects)
  {
    hide Consistent; hide SwitchPrefix; hide Replay; hide Select; hide UniqueRows; hide ClearedExpiries;
    var cleared := [ClearExpiries, ClearSubscriptions];
    ReplayTwo(st, ClearExpiries, ClearSubscriptions);
    ClearedLegal(st, cleared);
    RunKeepsConsistent(st, cleared);
    ModeKept(st, cleared);
    st1 := Replay(st, cleared);
    var listed := Select(st1.rows, PendingRows);
    ReplayConcat(st, cleared, SwitchPrefix(st1, listed, |listed|, tokens, now, faults).effects);
  }

  lemma ReachedAlike(st: State, st1: State, listed: seq<nat>, now: Time, faults: Faults)
    requires st1.cfg == st.cfg && |st1.rows| == |st.rows|
    requires forall j :: 0 <= j < |listed| ==> listed[j] < |st.rows| && st1.rows[listed[j]] == st.rows[listed[j]]
    ensures forall i :: i < |listed| ==> Reached(st1, listed, i, now, faults) == Reached(st, listed, i, now, faults)
  {
    hide NeedsToken; hide Sends;
  }

  /** The pending rows of a switchover. */
  lemma PrefixExactly(st: State, listed: seq<nat>, tokens: seq<string>, now: Time, faults: Faults)
    requires Consistent(st) && st.freeMode && |listed| <= |tokens| && Increasing(listed)
    requires forall i :: 0 <= i < |listed| ==> listed[i] < |st.rows| && st.rows[listed[i]].status == PendingPayment
    requires forall i :: 0 <= i < |tokens| ==> tokens[i] != ""
    ensures var t := SwitchPrefix(st, listed, |listed|, tokens, now, faults);
            var rows := Replay(st, t.effects).rows;
            && |rows| == |st.rows|
            && (forall i :: 0 <= i < |listed| ==>
                  rows[listed[i]] == Served(st.rows[listed[i]], tokens[i], now, Reached(st, listed, i, now, faults)))
            && (t.ok <==> Reached(st, listed, |listed| - 1, now, faults))
  {
    hide Consistent; hide SwitchPrefix; hide Replay; hide NeedsToken; hide Sends;
    var p := SwitchGoesOn(st, listed, |listed|, tokens, now, faults);
    var rows := Replay(st, SwitchPrefix(st, listed, |listed|, tokens, now, faults).effects).rows;
    forall i | 0 <= i < |listed|
      ensures rows[listed[i]] == Served(st.rows[listed[i]], tokens[i], now, Reached(st, listed, i, now, faults))
    {
      ServedExactly(st, listed, p, tokens, now, i);
      assert i < p <==> Reached(st, listed, i, now, faults);
    }
  }

  /** Clearing the expiries leaves the pending rows, and their places. */
  lemma ClearedPending(rows: seq<Mailbox>)
    ensures Select(ClearedExpiries(rows), PendingRows) == Select(rows, PendingRows)
    ensures |ClearedExpiries(rows)| == |rows|
    ensures forall k :: 0 <= k < |rows| && rows[k].status == PendingPayment ==> ClearedExpiries(rows)[k] == rows[k]
  {
    SameSelected(ClearedExpiries(rows), rows);
  }

  lemma {:induction false} SameSelected(a: seq<Mailbox>, b: seq<Mailbox>)
    requires |a| == |b| && forall k :: 0 <= k < |a| ==> a[k].status == b[k].status
    ensures Select(a, PendingRows) == Select(b, PendingRows)
    decreases |a|
  {
    if a != [] {
      SameSelected(a[..|a| - 1], b[..|b| - 1]);
    }
  }

  lemma ServedExactly(st: State, listed: seq<nat>, p: nat, tokens: seq<string>, now: Time, i: nat)
    requires p <= |listed| <= |tokens| && Increasing(listed) && i < |listed|
    requires forall j :: 0 <= j < |listed| ==> listed[j] < |st.rows| && st.rows[listed[j]].status == PendingPayment
    ensures WithTokens(st.rows, listed, p, tokens, now)[listed[i]] ==
              Served(st.rows[listed[i]], tokens[i], now, i < p)
  {
    hide WithTokens;
    TokenedRow(st.rows, listed, p, tokens, now, listed[i]);
    if listed[i] in listed[..p] {
      var j :| 0 <= j < p && listed[j] == listed[i];
      assert j == i;
    }
  }

  /** The first p rows are served, and the next, if there is one, met a failure. */
  lemma {:induction false} SwitchGoesOn(st: State, listed: seq<nat>, n: nat, tokens: seq<string>, now: Time,
                                        faults: Faults)
      returns (p: nat)
    requires Consistent(st) && st.freeMode && n <= |listed| <= |tokens| && Increasing(listed)
    requires forall i :: 0 <= i < |listed| ==> listed[i] < |st.rows| && st.rows[listed[i]].status == PendingPayment
    requires forall i :: 0 <= i < |tokens| ==> tokens[i] != ""
    ensures p <= n && (SwitchPrefix(st, listed, n, tokens, now, faults).ok <==> p == n)
    ensures SwitchedUpTo(st, SwitchPrefix(st, listed, n, tokens, now, faults), listed, p, tokens, now)
    ensures forall i: nat :: i < p && NeedsToken(st.rows[listed[i]], now) ==> Sends(st.cfg, i, faults)
    ensures p < n ==> NeedsToken(st.rows[listed[p]], now) && !Sends(st.cfg, p, faults)
  {
    hide Consistent; hide Replay; hide UniqueRows; hide Update; hide WithToken; hide LegalRun; hide HasValidToken;
    hide NeedsToken;
    if n == 0 {
      ReplayNothing(st);
      return 0;
    }
    p := SwitchGoesOn(st, listed, n - 1, tokens, now, faults);
    var before := SwitchPrefix(st, listed, n - 1, tokens, now, faults);
    var k := listed[n - 1];
    var m := st.rows[k];
    NeedsExactly(m, now);
    if before.ok && HasValidToken(m, now) {
      p := n;
    } else if before.ok && Call(Token, n - 1) !in faults && st.cfg.publicBaseUrl != "" && Call(Mail, n - 1) !in faults {
      OneMoreToken(st, listed, n, tokens, now, faults);
      p := if Call(RowWrite, n - 1) in faults then p else n;
    }
  }

  /** The write of the next token, when nothing failed before it. */
  lemma OneMoreToken(st: State, listed: seq<nat>, n: nat, tokens: seq<string>, now: Time, faults: Faults)
    requires Consistent(st) && st.freeMode && 0 < n <= |listed| <= |tokens| && Increasing(listed)
    requires forall i :: 0 <= i < |listed| ==> listed[i] < |st.rows| && st.rows[listed[i]].status == PendingPayment
    requires forall i :: 0 <= i < |tokens| ==> tokens[i] != ""
    requires var before := SwitchPrefix(st, listed, n - 1, tokens, now, faults);
             before.ok && SwitchedUpTo(st, before, listed, n - 1, tokens, now)
    ensures var before := SwitchPrefix(st, listed, n - 1, tokens, now, faults);
            var mid := Replay(st, before.effects);
            var k := listed[n - 1];
            var row := WithToken(st.rows[k], tokens[n - 1], now);
            var step := Update(mid, k, row, Tokened(now), n - 1, faults);
            && (step.ok <==> Call(RowWrite, n - 1) !in faults)
            && Replay(st, before.effects + step.effects).rows == if step.ok then mid.rows[k := row] else mid.rows
  {
    hide Consistent; hide Replay; hide UniqueRows; hide Update; hide WithToken; hide LegalRun; hide HasValidToken;
    hide SwitchPrefix; hide Needing;
    var before := SwitchPrefix(st, listed, n - 1, tokens, now, faults);
    var mid := Replay(st, before.effects);
    var k := listed[n - 1];
    var row := WithToken(st.rows[k], tokens[n - 1], now);
    SwitchPrefixLegal(st, listed, n - 1, tokens, now, faults);
    RunKeepsConsistent(st, before.effects);
    ConsistentUnique(mid);
    assert mid.rows[k] == st.rows[k] by { TokenedRow(st.rows, listed, n - 1, tokens, now, k); }
    TokenSucceeds(mid, k, tokens[n - 1], now, n - 1, faults);
    UpdateRows(mid, k, row, Tokened(now), n - 1, faults);
    ReplayConcat(st, before.effects, Update(mid, k, row, Tokened(now), n - 1, faults).effects);
  }

  lemma NeedsExactly(m: Mailbox, now: Time)
    ensures NeedsToken(m, now) <==> m.status == PendingPayment && !HasValidToken(m, now)
  {
  }

  lemma TokenSucceeds(st: State, k: nat, hash: string, now: Time, i: nat, faults: Faults)
    requires UniqueRows(st.rows) && k < |st.rows|
    ensures var row := WithToken(st.rows[k], hash, now);
            Update(st, k, row, Tokened(now), i, faults).ok <==> Call(RowWrite, i) !in faults
  {
    hide UniqueRows;
    UniqueWithout(st.rows, k, WithToken(st.rows[k], hash, now));
  }

  /**
   * What a switchover reports, failed or not: the active rows, cleared or
   * without an expiry already; the accounts whose expiry it took; and the rows
   * that got a token. Tokens are issued only where links can be sent.
   */
  lemma SwitchoverReports(st: State, tokens: seq<string>, now: Time, faults: Faults)
    requires Answers(st, Switching(tokens, now, faults))
    ensures var report := SwitchoverReport(st, tokens, now, faults);
            var t := Switchover(st, tokens, now, faults);
            var after := Replay(st, t.effects);
            && after.accounts.Keys == st.accounts.Keys
            && report.activeCleared == (if st.freeMode && Call(BulkWrite, 0) !in faults
                                        then |set k: nat | k < |st.rows| && st.rows[k].status == Active| else 0)
            && report.accountsCleared == |set a | a in st.accounts && after.accounts[a] != st.accounts[a]|
            && report.pendingConverted == t.count
            && (t.count > 0 ==> st.cfg.publicBaseUrl != "")
            && (!st.freeMode ==> !t.ok && t.effects == [])
  {
    hide SwitchPrefix; hide Replay; hide Select; hide ActiveCount;
    ActiveCounted(st.rows);
    ReplayNothing(st);
    var t := Switchover(st, tokens, now, faults);
    var after := Replay(st, t.effects);
    if st.freeMode {
      SwitchClears(st, tokens, now, faults);
      var taken := set a | a in st.accounts && after.accounts[a] != st.accounts[a];
      if Call(BulkWrite, 0) in faults || Call(BulkWrite, 1) in faults {
        assert taken == {};
      } else {
        assert taken == TimedAccounts(st.accounts);
        var cleared := [ClearExpiries, ClearSubscriptions];
        SwitchoverSizes(st, cleared);
        var st1 := Replay(st, cleared);
        var listed := Select(st1.rows, PendingRows);
        ModeKept(st, cleared);
        LinksNeedUrl(st1, listed, |listed|, tokens, now, faults);
      }
    } else {
      assert (set a | a in st.accounts && after.accounts[a] != st.accounts[a]) == {};
    }
  }

  function ActiveOnes(rows: seq<Mailbox>): set<nat> {
    set k: nat | k < |rows| && rows[k].status == Active
  }

  lemma OneMoreActive(rows: seq<Mailbox>)
    ensures ActiveOnes([]) == {}
    ensures rows != [] ==>
              var n := |rows| - 1;
              && n !in ActiveOnes(rows[..n])
              && ActiveOnes(rows) == ActiveOnes(rows[..n]) + (if rows[n].status == Active then {n} else {})
  {
  }

  lemma {:induction false} ActiveCounted(rows: seq<Mailbox>)
    ensures ActiveCount(rows) == |ActiveOnes(rows)|
    decreases |rows|
  {
    hide ActiveOnes;
    OneMoreActive(rows);
    if rows != [] {
      ActiveCounted(rows[..|rows| - 1]);
    }
  }

  lemma {:induction false} LinksNeedUrl(st: State, listed: seq<nat>, n: nat, tokens: seq<string>, now: Time,
                                        faults: Faults)
    requires n <= |listed| <= |tokens| && forall i :: 0 <= i < |listed| ==> listed[i] < |st.rows|
    ensures SwitchPrefix(st, listed, n, tokens, now, faults).count > 0 ==> st.cfg.publicBaseUrl != ""
  {
    hide WithToken; hide HasValidToken; hide UniqueRows; hide Replay;
    if n > 0 {
      LinksNeedUrl(st, listed, n - 1, tokens, now, faults);
    }
  }

  /** A row through several switchovers: at most one of them gave it a token, if it needed one. */
  ghost predicate SwitchedBy(m: Mailbox, row: Mailbox, runs: seq<SwitchRun>, last: Time) {
    || row == m
    || (m.status == Active && row == m.(expiresAt := None))
    || (NeedsToken(m, last) && exists i, j ::
          0 <= i < |runs| && 0 <= j < |runs[i].tokens| && row == WithToken(m, runs[i].tokens[j], runs[i].now))
  }

  ghost predicate GoodRuns(st: State, runs: seq<SwitchRun>, first: Time, last: Time) {
    forall i :: 0 <= i < |runs| ==>
      && Within(runs[i].now, first, last) && |runs[i].tokens| >= |st.rows|
      && forall j :: 0 <= j < |runs[i].tokens| ==> runs[i].tokens[j] != ""
  }

  lemma SwitchedMore(m: Mailbox, row: Mailbox, next: Mailbox, runs: seq<SwitchRun>, first: Time, last: Time)
    requires runs != [] && Within(runs[|runs| - 1].now, first, last)
    requires forall i :: 0 <= i < |runs| ==>
        Within(runs[i].now, first, last) && forall j :: 0 <= j < |runs[i].tokens| ==> runs[i].tokens[j] != ""
    requires SwitchedBy(m, row, runs[..|runs| - 1], last)
    requires var run := runs[|runs| - 1]; SwitchStep(row, next, run.tokens, run.now, last)
    ensures SwitchedBy(m, next, runs, last)
  {
    var before := runs[..|runs| - 1];
    var run := runs[|runs| - 1];
    if row != m && !(m.status == Active && row == m.(expiresAt := None)) {
      var i, j :| 0 <= i < |before| && 0 <= j < |before[i].tokens| &&
          row == WithToken(m, before[i].tokens[j], before[i].now);
      assert runs[i] == before[i];
      assert !NeedsToken(row, last);
    } else if NeedsToken(row, last) && next != row {
      var j :| 0 <= j < |run.tokens| && next == WithToken(row, run.tokens[j], run.now);
      assert row == m && next == WithToken(m, runs[|runs| - 1].tokens[j], runs[|runs| - 1].now);
    }
  }

  lemma {:induction false} SwitchesSoFar(st: State, runs: seq<SwitchRun>, first: Time, last: Time)
    requires st.freeMode && GoodRuns(st, runs, first, last) && TokensLast(st.rows, first, last)
    ensures var after := AfterSwitches(st, runs);
            && after.freeMode && |after.rows| == |st.rows|
            && (forall k :: 0 <= k < |st.rows| ==> SwitchedBy(st.rows[k], after.rows[k], runs, last))
            && TokensLast(after.rows, first, last)
            && CountNeeding(after.rows, last) + Converted(st, runs) == CountNeeding(st.rows, last)
            && after.accounts.Keys == st.accounts.Keys
    decreases |runs|
  {
    hide Switchover; hide CountNeeding; hide TokensLast; hide SwitchStep; hide SwitchedBy; hide NeedsToken;
    if runs == [] {
      forall k | 0 <= k < |st.rows| ensures SwitchedBy(st.rows[k], st.rows[k], runs, last) {
        SwitchedNot(st.rows[k], runs, last);
      }
    } else {
      var before := AfterSwitches(st, runs[..|runs| - 1]);
      var run := runs[|runs| - 1];
      SwitchesSoFar(st, runs[..|runs| - 1], first, last);
      SwitchOnce(before, run.tokens, run.now, run.faults, first, last);
      forall k | 0 <= k < |st.rows|
        ensures SwitchedBy(st.rows[k], AfterSwitches(st, runs).rows[k], runs, last)
      {
        SwitchedMore(st.rows[k], before.rows[k], AfterSwitches(st, runs).rows[k], runs, first, last);
      }
    }
  }

  lemma SwitchedNot(m: Mailbox, runs: seq<SwitchRun>, last: Time)
    ensures SwitchedBy(m, m, runs, last)
  {
  }

  /**
   * Switchovers that failed anywhere, run again until one succeeds within the
   * lifetime of the tokens: every pending row that lacked a valid token has
   * one new token, the conversions reported add up to the number of these
   * rows, expired rows and rows with a valid token are untouched, active rows
   * and accounts have lost their expiries, and one more run converts none.
   */
  lemma SwitchoversConverge(st: State, runs: seq<SwitchRun>, first: Time, last: Time, again: SwitchRun)
    requires st.freeMode && GoodRuns(st, runs + [again], first, last) && TokensLast(st.rows, first, last)
    requires runs != []
    requires var run := runs[|runs| - 1];
             var before := AfterSwitches(st, runs[..|runs| - 1]);
             |run.tokens| >= |before.rows| && Switchover(before, run.tokens, run.now, run.faults).ok
    ensures var after := AfterSwitches(st, runs);
            && |after.rows| == |st.rows|
            && (forall k :: 0 <= k < |st.rows| && NeedsToken(st.rows[k], last) ==>
                  exists i, j :: 0 <= i < |runs| && 0 <= j < |runs[i].tokens|
                    && after.rows[k] == st.rows[k].(tokenHash := runs[i].tokens[j],
                                                    tokenExpiresAt := Some(runs[i].now + 24 * HOUR),
                                                    status := PendingPayment, session := "", paymentUrl := ""))
            && (forall k :: 0 <= k < |st.rows| && st.rows[k].status == Active ==>
                  after.rows[k] == st.rows[k].(expiresAt := None))
            && after.accounts == (map a | a in st.accounts :: None)
            && (forall k :: 0 <= k < |st.rows| && !NeedsToken(st.rows[k], last) && st.rows[k].status != Active ==>
                  after.rows[k] == st.rows[k])
            && Converted(st, runs) == CountNeeding(st.rows, last)
            && |again.tokens| >= |after.rows|
            && Switchover(after, again.tokens, again.now, again.faults).count == 0
  {
    hide Switchover; hide CountNeeding; hide TokensLast; hide BulkCleared;
    var all := runs + [again];
    assert forall i :: 0 <= i < |runs| ==> all[i] == runs[i];
    assert all[|runs|] == again;
    assert GoodRuns(st, runs, first, last) && GoodRuns(st, runs[..|runs| - 1], first, last);
    var before := AfterSwitches(st, runs[..|runs| - 1]);
    var run := runs[|runs| - 1];
    var after := AfterSwitches(st, runs);
    SwitchesSoFar(st, runs[..|runs| - 1], first, last);
    SwitchOnce(before, run.tokens, run.now, run.faults, first, last);
    SwitchesSoFar(st, runs, first, last);
    NoneNeeds(after.rows, last);
    SwitchOnce(after, again.tokens, again.now, again.faults, first, last);
    ActiveConverge(st, runs, first, last);
  }

  /** After a successful switchover no active row and no account has an expiry. */
  lemma ActiveConverge(st: State, runs: seq<SwitchRun>, first: Time, last: Time)
    requires st.freeMode && GoodRuns(st, runs, first, last) && TokensLast(st.rows, first, last)
    requires runs != []
    requires var run := runs[|runs| - 1];
             var before := AfterSwitches(st, runs[..|runs| - 1]);
             |run.tokens| >= |before.rows| && Switchover(before, run.tokens, run.now, run.faults).ok
    ensures var after := AfterSwitches(st, runs);
            && |after.rows| == |st.rows|
            && (forall k :: 0 <= k < |st.rows| && st.rows[k].status == Active ==>
                  after.rows[k] == st.rows[k].(expiresAt := None))
            && after.accounts == (map a | a in st.accounts :: None)
  {
    hide Switchover; hide CountNeeding; hide TokensLast;
    var before := AfterSwitches(st, runs[..|runs| - 1]);
    var run := runs[|runs| - 1];
    SwitchesSoFar(st, runs[..|runs| - 1], first, last);
    SwitchOnce(before, run.tokens, run.now, run.faults, first, last);
  }

  lemma {:induction false} NoneNeeds(rows: seq<Mailbox>, now: Time)
    requires forall k :: 0 <= k < |rows| ==> !NeedsToken(rows[k], now)
    ensures CountNeeding(rows, now) == 0
    decreases |rows|
  {
    if rows != [] {
      NoneNeeds(rows[..|rows| - 1], now);
    }
  }
}
