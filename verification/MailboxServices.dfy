/**
 * The mailbox service as an object: methods that read a row, change the copy
 * field by field and write it back, port call by port call.
 *
 * Each method is proved against the journal that Lifecycle gives for its call,
 * so everything proved about journals holds of these methods.
 */
module MailboxServices {
  import opened Calendar
  import opened Domain
  import opened Lifecycle

  class MailboxService {
    const cfg: Config
    var rows: seq<Mailbox>                        // the mailboxes table
    var enabled: map<string, bool>                // the mail_users table
    var accounts: map<string, Option<Time>>       // the accounts table
    var freeMode: bool
    var lastClaimPoll: Time

    ghost function Now(): State
      reads this
    {
      State(cfg, rows, enabled, accounts, freeMode, lastClaimPoll)
    }

    /** The call did what `t` says, starting from `before`. */
    ghost predicate Did(before: State, t: Trace, ok: bool)
      reads this
    {
      Now() == Replay(before, t.effects) && ok == t.ok
    }

    constructor (cfg: Config)
      ensures Now() == State(cfg, [], map[], map[], false, 0)
    {
      this.cfg := cfg;
      rows, enabled, accounts, freeMode, lastClaimPoll := [], map[], map[], false, 0;
    }

    method SetFreeMode(on: bool)
      modifies this
      ensures Did(old(Now()), Exec(old(Now()), SettingMode(on)), true)
    {
      freeMode := on;
      ReplayOne(old(Now()), SwitchMode(on));
    }

    // ---------- the repository and the runtime ----------

    method First(key: Key) returns (found: Option<nat>)
      ensures found == Find(rows, key)
    {
      var i := 0;
      while i < |rows|
        invariant i <= |rows| && FindFrom(rows, key, i) == Find(rows, key)
      {
        if Matches(rows[i], key) {
          return Some(i);
        }
        i := i + 1;
      }
      return None;
    }

    method ListRows(filter: Filter) returns (listed: seq<nat>)
      ensures listed == Select(rows, filter)
    {
      listed := [];
      var i := 0;
      while i < |rows|
        invariant i <= |rows| && listed == Select(rows[..i], filter)
      {
        assert rows[..i + 1][..i] == rows[..i];
        if Selected(rows[i], filter) {
          listed := listed + [i];
        }
        i := i + 1;
      }
      assert rows[..i] == rows;
    }

    method Save(k: nat, row: Mailbox, ghost why: Why, i: nat, faults: Faults) returns (ok: bool)
      requires k < |rows|
      modifies this
      ensures Did(old(Now()), Update(old(Now()), k, row, why, i, faults), ok)
    {
      if Call(RowWrite, i) in faults || !UniqueRows(rows[k := row]) {
        return false;
      }
      rows := rows[k := row];
      ReplayOne(old(Now()), Effect.Save(k, row, why));
      return true;
    }

    method Add(row: Mailbox, ghost byAdmin: bool, i: nat, faults: Faults) returns (ok: bool)
      modifies this
      ensures Did(old(Now()), Create(old(Now()), row, byAdmin, i, faults), ok)
    {
      if Call(RowWrite, i) in faults || !UniqueRows(rows + [row]) {
        return false;
      }
      rows := rows + [row];
      ReplayOne(old(Now()), Insert(row, byAdmin));
      return true;
    }

    method ExtendAccount(account: string, until: Time)
      modifies this
      ensures Now() == Apply(old(Now()), Extend(account, until)) && rows == old(rows)
    {
      if account in accounts {
        accounts := accounts[account := Some(until)];
      }
    }

    method EnsureMailbox(login: string, i: nat, faults: Faults) returns (ok: bool)
      modifies this
      ensures Did(old(Now()), Ensure(login, i, faults), ok)
      ensures enabled == if ok then old(enabled)[login := true] else old(enabled)
    {
      if Call(Provision, i) in faults {
        return false;
      }
      enabled := enabled[login := true];
      ReplayOne(old(Now()), Enable(login));
      return true;
    }

    method DisableMailbox(login: string, i: nat, faults: Faults) returns (ok: bool)
      modifies this
      ensures ok == (Call(Provision, i) !in faults)
      ensures Now() == if ok then Apply(old(Now()), Disable(login)) else old(Now())
    {
      if Call(Provision, i) in faults {
        return false;
      }
      if login in enabled {
        enabled := enabled[login := false];
      }
      return true;
    }

    method SaveThenEnsure(k: nat, row: Mailbox, ghost why: Why, i: nat, faults: Faults) returns (ok: bool)
      requires k < |rows|
      modifies this
      ensures var before := old(Now());
              Did(before, AndThen(Update(before, k, row, why, i, faults), Ensure(row.login, i, faults)), ok)
    {
      ghost var before := Now();
      ok := Save(k, row, why, i, faults);
      if ok {
        ReplayConcat(before, Update(before, k, row, why, i, faults).effects, Ensure(row.login, i, faults).effects);
        ok := EnsureMailbox(row.login, i, faults);
      }
    }

    // ---------- payment ----------

    /** markMailboxPaid. */
    method MarkMailboxPaid(session: string, charge: Option<Charge>, clock: Time, i: nat, faults: Faults)
        returns (ok: bool)
      modifies this
      ensures Did(old(Now()), MarkPaid(old(Now()), session, charge, clock, i, faults), ok)
    {
      hide AddMonths; hide UniqueRows; hide Update; hide Replay;
      ghost var before := Now();
      ReplayNothing(before);
      if freeMode {
        return true;
      }
      if Call(Relookup, i) in faults {
        return false;
      }
      var found := First(BySession(session));
      if found.None? {
        return false;
      }
      var k := found.value;
      var mailbox := rows[k];
      if mailbox.status == Active {
        ok := EnsureMailbox(mailbox.login, i, faults);
        return;
      }
      var now := clock;
      if charge.Some? {
        mailbox := mailbox.(lastChargeId := charge.value.chargeId, lastChargedAt := Some(charge.value.at));
        now := charge.value.at;
      }
      if mailbox.accountId == "" {
        var base := now;
        if mailbox.expiresAt.Some? && mailbox.expiresAt.value > base {
          base := mailbox.expiresAt.value;
        }
        var months := mailbox.grantedMonths;
        if months <= 0 {
          months := 1;
        }
        mailbox := mailbox.(status := Active);
        mailbox := mailbox.(paidAt := Some(now));
        mailbox := mailbox.(expiresAt := Some(AddMonths(base, months)));
        ok := SaveThenEnsure(k, mailbox, Paid(charge, base, months), i, faults);
        return;
      }
      if Call(AccountRead, i) in faults || mailbox.accountId !in accounts {
        return false;
      }
      var base := now;
      if accounts[mailbox.accountId].Some? && accounts[mailbox.accountId].value > base {
        base := accounts[mailbox.accountId].value;
      }
      var nextExpiry := AddMonths(base, 1);
      if Call(AccountWrite, i) in faults {
        return false;
      }
      ExtendAccount(mailbox.accountId, nextExpiry);
      mailbox := mailbox.(status := Active);
      mailbox := mailbox.(paidAt := Some(now));
      mailbox := mailbox.(expiresAt := Some(nextExpiry));
      ghost var e := Extend(mailbox.accountId, nextExpiry);
      ghost var rest := AndThen(Update(Now(), k, mailbox, Paid(charge, base, 1), i, faults),
                                Ensure(mailbox.login, i, faults));
      UpdateSameRows(before, Now(), k, mailbox, Paid(charge, base, 1), i, faults);
      ReplayOne(before, e);
      ReplayConcat(before, [e], rest.effects);
      hide AndThen; hide Ensure;
      ok := SaveThenEnsure(k, mailbox, Paid(charge, base, 1), i, faults);
    }

    /** The renewal branch of the poll. */
    method RenewFromCharge(k: nat, c: Charge, i: nat, faults: Faults) returns (ok: bool)
      requires k < |rows|
      modifies this
      ensures Did(old(Now()), Renew(old(Now()), k, old(rows)[k], c, i, faults), ok)
    {
      hide AddMonths; hide UniqueRows; hide Update; hide Apply; hide AndThen; hide Ensure;
      ghost var before := Now();
      var mailbox := rows[k];
      var base := c.at;
      if mailbox.expiresAt.Some? && mailbox.expiresAt.value > base {
        base := mailbox.expiresAt.value;
      }
      var nextExpiry := AddMonths(base, 1);
      ghost var first: seq<Effect> := [];
      if mailbox.accountId != "" {
        if Call(AccountWrite, i) in faults {
          return false;
        }
        ExtendAccount(mailbox.accountId, nextExpiry);
        first := [Extend(mailbox.accountId, nextExpiry)];
        ReplayOne(before, Extend(mailbox.accountId, nextExpiry));
      }
      mailbox := mailbox.(status := Active);
      mailbox := mailbox.(paidAt := Some(c.at));
      mailbox := mailbox.(expiresAt := Some(nextExpiry));
      mailbox := mailbox.(lastChargeId := c.chargeId);
      mailbox := mailbox.(lastChargedAt := Some(c.at));
      ghost var rest := AndThen(Update(Now(), k, mailbox, Renewed(c, base), i, faults),
                                Ensure(mailbox.login, i, faults));
      UpdateSameRows(before, Now(), k, mailbox, Renewed(c, base), i, faults);
      ReplayConcat(before, first, rest.effects);
      ok := SaveThenEnsure(k, mailbox, Renewed(c, base), i, faults);
    }

    /** ReconcileOpenCollectivePayments. */
    method ReconcileOpenCollectivePayments(feed: Option<seq<Charge>>, faults: Faults) returns (applied: nat, ok: bool)
      modifies this
      ensures Did(old(Now()), Poll(old(Now()), feed, faults), ok)
      ensures applied == Poll(old(Now()), feed, faults).count
    {
      ghost var before := Now();
      applied := 0;
      if freeMode {
        return 0, true;
      }
      if feed.None? {
        return 0, false;
      }
      var charges := feed.value;
      var i := 0;
      while i < |charges|
        invariant i <= |charges|
        invariant Did(before, PollPrefix(before, charges, i, faults), true)
        invariant applied == PollPrefix(before, charges, i, faults).count
      {
        ghost var mid := Now();
        ghost var step := CreditCharge(mid, charges[i], i, faults);
        ReplayConcat(before, PollPrefix(before, charges, i, faults).effects, step.effects);
        var credited;
        credited, ok := CreditOne(charges[i], i, faults);
        i := i + 1;
        if !ok {
          PollStuck(before, charges, i, |charges|, faults);
          return;
        }
        applied := applied + credited;
      }
      ok := true;
    }

    /** The body of its loop; `credited` is 1 when the charge was applied. */
    method CreditOne(c: Charge, i: nat, faults: Faults) returns (credited: nat, ok: bool)
      modifies this
      ensures Did(old(Now()), CreditCharge(old(Now()), c, i, faults), ok)
      ensures ok ==> credited == CreditCharge(old(Now()), c, i, faults).count
    {
      if Call(Lookup, i) in faults {
        return 0, false;
      }
      var found := First(BySession(c.tag));
      if found.None? {
        return 0, true;
      }
      var mailbox := rows[found.value];
      if !HasTagPrefix(mailbox.session) || c.chargeId == ""
         || (mailbox.lastChargedAt.Some? && !(c.at > mailbox.lastChargedAt.value)) {
        return 0, true;
      }
      if mailbox.status == PendingPayment {
        ok := MarkMailboxPaid(c.tag, Some(c), c.at, i, faults);
      } else {
        RenewCounts(old(Now()), found.value, mailbox, c, i, faults);
        ok := RenewFromCharge(found.value, c, i, faults);
      }
      credited := 1;
    }

    /** ReconcilePendingPayments: one result for each row listed. */
    method ReconcilePendingPayments(now: Time, replies: map<string, SessionReply>, faults: Faults)
        returns (results: seq<ReconcileResult>, ok: bool)
      modifies this
      ensures Did(old(Now()), ReconcilePending(old(Now()), now, replies, faults), ok)
      ensures ok ==> results == PendingReport(old(Now()), now, replies, faults)
    {
      hide Replay; hide PendingPrefix; hide PendingResults;
      ReplayNothing(Now());
      if freeMode {
        return [], true;
      }
      if Call(Listing, 0) in faults {
        return [], false;
      }
      var pending := ListRows(PendingRows);
      PendingAllOk(Now(), pending, |pending|, now, replies, faults);
      results := ReconcileListed(pending, now, replies, faults);
      ok := true;
    }

    /** Its loop over the pending rows, as they were listed. */
    method ReconcileListed(pending: seq<nat>, now: Time, replies: map<string, SessionReply>, faults: Faults)
        returns (results: seq<ReconcileResult>)
      requires forall i :: 0 <= i < |pending| ==> pending[i] < |rows|
      modifies this
      ensures Now() == Replay(old(Now()), PendingPrefix(old(Now()), pending, |pending|, now, replies, faults).effects)
      ensures results == PendingResults(old(Now()), pending, |pending|, now, replies, faults)
    {
      hide MarkPaid; hide SessionStatus; hide Replay; hide PendingPrefix; hide PendingResults; hide ResultFor;
      ghost var before := Now();
      PendingNothing(before, pending, now, replies, faults);
      var table := rows;
      results := [];
      var i := 0;
      while i < |pending|
        invariant i <= |pending|
        invariant Now() == Replay(before, PendingPrefix(before, pending, i, now, replies, faults).effects)
        invariant results == PendingResults(before, pending, i, now, replies, faults)
      {
        PendingStep(before, Now(), pending, i, now, replies, faults);
        var result := ReconcilePendingRow(table[pending[i]], now, replies, i, faults);
        results := results + [result];
        i := i + 1;
      }
    }

    /** The body of its loop, on a row as it was listed. */
    method ReconcilePendingRow(mb: Mailbox, now: Time, replies: map<string, SessionReply>, i: nat, faults: Faults)
        returns (result: ReconcileResult)
      modifies this
      ensures var mid := old(Now());
              var reply := SessionStatus(mid.cfg, mb.session, replies);
              var paying := MarkPaid(mid, mb.session, None, now, i, faults);
              && result == ResultFor(mb, Call(Gateway, i) in faults, reply, paying.ok)
              && Now() == if result.deed == PaidFor || result.deed == PayingFailed
                          then Replay(mid, paying.effects) else mid
    {
      hide MarkPaid; hide SessionStatus; hide Replay;
      result := ReconcileResult(mb.id, mb.session, NoSession, Skipped);
      if mb.session == "" {
        return;
      }
      var reply := SessionStatus(cfg, mb.session, replies);
      if Call(Gateway, i) in faults || reply.Unknown? || reply.GatewayError? {
        result := result.(learnt := CheckFailed);
        return;
      }
      result := result.(learnt := Checked(reply));
      if reply.Confirmed? || reply.Succeeded? {
        var paid := MarkMailboxPaid(mb.session, None, now, i, faults);
        result := result.(deed := if paid then PaidFor else PayingFailed);
      } else {
        result := result.(deed := NoAction);
      }
    }

    // ---------- expiry ----------

    /** expireMailbox. */
    method ExpireMailbox(k: nat, mailbox: Mailbox, ghost why: Why, i: nat, faults: Faults) returns (ok: bool)
      requires k < |rows|
      modifies this
      ensures Did(old(Now()), Expire(old(Now()), k, mailbox, why, i, faults), ok)
      ensures |rows| == |old(rows)| && freeMode == old(freeMode)
    {
      hide UniqueRows; hide Replay; hide Update;
      ghost var before := Now();
      ReplayNothing(before);
      ok := DisableMailbox(mailbox.login, i, faults);
      if !ok {
        return;
      }
      var row := mailbox.(status := Expired);
      ghost var e := Disable(mailbox.login);
      UpdateSameRows(before, Now(), k, row, why, i, faults);
      ReplayOne(before, e);
      ReplayConcat(before, [e], Update(before, k, row, why, i, faults).effects);
      UpdateSize(Now(), k, row, why, i, faults);
      ok := Save(k, row, why, i, faults);
    }

    /** ExpireMailboxes. */
    method ExpireMailboxes(now: Time, faults: Faults) returns (count: nat, ok: bool)
      modifies this
      ensures Did(old(Now()), Sweep(old(Now()), now, faults), ok)
      ensures count == Sweep(old(Now()), now, faults).count
    {
      if freeMode {
        return 0, true;
      }
      if Call(Listing, 0) in faults {
        return 0, false;
      }
      var expired := ListRows(ActiveDue(now));
      count, ok := ExpireListed(expired, faults);
    }

    /** Its loop over the due rows. */
    method ExpireListed(expired: seq<nat>, faults: Faults) returns (count: nat, ok: bool)
      requires forall i :: 0 <= i < |expired| ==> expired[i] < |rows|
      modifies this
      ensures Did(old(Now()), SweepPrefix(old(Now()), expired, |expired|, faults), ok)
      ensures count == SweepPrefix(old(Now()), expired, |expired|, faults).count
    {
      hide Expire; hide UniqueRows;
      ghost var before := Now();
      var table := rows;
      count := 0;
      var i := 0;
      while i < |expired|
        invariant i <= |expired| && |rows| == |table|
        invariant Did(before, SweepPrefix(before, expired, i, faults), true)
        invariant count == SweepPrefix(before, expired, i, faults).count
      {
        ghost var mid := Now();
        ReplayConcat(before, SweepPrefix(before, expired, i, faults).effects,
                     Expire(mid, expired[i], table[expired[i]], Lapsed, i, faults).effects);
        ok := ExpireMailbox(expired[i], table[expired[i]], Lapsed, i, faults);
        i := i + 1;
        if !ok {
          SweepStopped(before, expired, i, |expired|, faults);
          return;
        }
        count := count + 1;
      }
      ok := true;
    }

    /** DisableExpiredMailboxes. */
    method DisableExpiredMailboxes(faults: Faults) returns (count: nat, ok: bool)
      modifies this
      ensures Did(old(Now()), DisableExpired(old(Now()), faults), ok)
      ensures count == DisableExpired(old(Now()), faults).count
    {
      if freeMode {
        return 0, true;
      }
      if Call(Listing, 0) in faults {
        return 0, false;
      }
      var expired := ListRows(ExpiredRows);
      count, ok := DisableListed(expired, faults);
    }

    /** Its loop over the expired rows. */
    method DisableListed(expired: seq<nat>, faults: Faults) returns (count: nat, ok: bool)
      requires forall i :: 0 <= i < |expired| ==> expired[i] < |rows|
      modifies this
      ensures Did(old(Now()), DisablePrefix(old(Now()), expired, |expired|, faults), ok)
      ensures count == DisablePrefix(old(Now()), expired, |expired|, faults).count
    {
      hide Replay; hide Apply;
      ghost var before := Now();
      ReplayNothing(before);
      var table := rows;
      count := 0;
      var i := 0;
      while i < |expired|
        invariant i <= |expired|
        invariant Did(before, DisablePrefix(before, expired, i, faults), true)
        invariant count == DisablePrefix(before, expired, i, faults).count
      {
        ghost var e := Disable(table[expired[i]].login);
        ghost var done := DisablePrefix(before, expired, i, faults).effects;
        ReplayConcat(before, done, [e]);
        ReplayOne(Now(), e);
        ok := DisableMailbox(table[expired[i]].login, i, faults);
        i := i + 1;
        if !ok {
          DisableStopped(before, expired, i, |expired|, faults);
          return;
        }
        count := count + 1;
      }
      ok := true;
    }

    // ---------- activation links ----------

    /** sendActivationLink. */
    method SendActivationLink(i: nat, faults: Faults) returns (ok: bool)
      ensures ok == SendLink(Now(), i, faults).ok
    {
      ok := cfg.publicBaseUrl != "" && Call(Mail, i) !in faults;
    }

    /** newActivationToken: changes the copy of the row it is given. */
    method NewActivationToken(mailbox: Mailbox, hash: string, now: Time) returns (row: Mailbox)
      ensures row == WithToken(mailbox, hash, now)
      ensures row == mailbox.(tokenHash := hash, tokenExpiresAt := Some(now + 24 * HOUR), status := PendingPayment,
                              session := "", paymentUrl := "")
    {
      row := mailbox.(tokenHash := hash);
      row := row.(tokenExpiresAt := Some(now + ACTIVATION_TTL));
      row := row.(status := PendingPayment);
      row := row.(session := "");
      row := row.(paymentUrl := "");
    }

    /** issueActivationLink. */
    method IssueActivationLink(k: nat, mailbox: Mailbox, hash: string, now: Time, faults: Faults)
        returns (issued: Option<Mailbox>)
      requires k < |rows|
      modifies this
      ensures Did(old(Now()), IssueLink(old(Now()), k, mailbox, hash, now, faults), issued.Some?)
      ensures issued.Some? ==> issued.value == WithToken(mailbox, hash, now)
    {
      hide UniqueRows; hide Update; hide Replay; hide WithToken;
      ghost var before := Now();
      ReplayNothing(before);
      if Call(Token, 0) in faults {
        return None;
      }
      var row := NewActivationToken(mailbox, hash, now);
      ghost var write := Update(before, k, row, Tokened(now), 0, faults);
      assert write.effects + [] == write.effects;
      var ok := Save(k, row, Tokened(now), 0, faults);
      if !ok {
        return None;
      }
      ReplayKeepsConfig(before, write.effects);
      ok := SendActivationLink(0, faults);
      issued := if ok then Some(row) else None;
    }

    /** ActivateMailboxByActivationToken. */
    method ActivateMailbox(hash: string, now: Time, faults: Faults) returns (result: Option<ActivationResult>)
      modifies this
      ensures Did(old(Now()), Activate(old(Now()), hash, now, faults), result.Some?)
      ensures result.Some? ==>
        var found := Find(old(rows), ByTokenHash(hash));
        found.Some? &&
        var m := old(rows)[found.value];
        var activated := m.(status := Active, paidAt := Some(now), expiresAt := None);
        result.value == (if m.status == Active then ActivationResult(m, true) else ActivationResult(activated, false))
    {
      hide UniqueRows; hide Update; hide Replay;
      ReplayNothing(Now());
      if hash == "" || Call(Lookup, 0) in faults {
        return None;
      }
      var found := First(ByTokenHash(hash));
      if found.None? {
        return None;
      }
      var mailbox := rows[found.value];
      var ok;
      if mailbox.status == Active {
        ok := EnsureMailbox(mailbox.login, 0, faults);
        return if ok then Some(ActivationResult(mailbox, true)) else None;
      }
      if mailbox.status != PendingPayment {
        return None;
      }
      if mailbox.tokenExpiresAt.None? || !(mailbox.tokenExpiresAt.value > now) {
        return None;
      }
      mailbox := mailbox.(status := Active);
      mailbox := mailbox.(paidAt := Some(now));
      mailbox := mailbox.(expiresAt := None);
      ok := SaveThenEnsure(found.value, mailbox, Activated(now), 0, faults);
      return if ok then Some(ActivationResult(mailbox, false)) else None;
    }

    /** ClearActiveExpiries of the mailbox repository: the rows it touched. */
    method ClearActiveExpiries() returns (touched: nat)
      modifies this`rows
      ensures rows == ClearedExpiries(old(rows)) && touched == ActiveCount(old(rows))
      ensures |rows| == |old(rows)| && forall k :: 0 <= k < |rows| ==>
                rows[k] == if old(rows)[k].status == Active then old(rows)[k].(expiresAt := None) else old(rows)[k]
    {
      touched := 0;
      ghost var table := rows;
      var i := 0;
      while i < |rows|
        invariant i <= |rows| == |table| && touched == ActiveCount(table[..i])
        invariant forall k :: 0 <= k < i ==>
                    rows[k] == if table[k].status == Active then table[k].(expiresAt := None) else table[k]
        invariant forall k :: i <= k < |rows| ==> rows[k] == table[k]
      {
        assert table[..i + 1][..i] == table[..i];
        if rows[i].status == Active {
          rows := rows[i := rows[i].(expiresAt := None)];
          touched := touched + 1;
        }
        i := i + 1;
      }
      assert table[..i] == table;
    }

    /** SwitchoverToFreeMode, with the counts it reports. */
    method SwitchoverToFreeMode(tokens: seq<string>, now: Time, faults: Faults)
        returns (result: SwitchoverResult, ok: bool)
      requires |tokens| >= |rows|
      modifies this
      ensures Did(old(Now()), Switchover(old(Now()), tokens, now, faults), ok)
      ensures result == SwitchoverReport(old(Now()), tokens, now, faults)
    {
      hide Update; hide UniqueRows; hide SwitchPrefix; hide ActiveCount; hide ClearedExpiries;
      ghost var before := Now();
      result := SwitchoverResult(0, 0, 0);
      if !freeMode || Call(BulkWrite, 0) in faults {
        return result, false;
      }
      var touched := ClearActiveExpiries();
      result := result.(activeCleared := touched);
      ReplayOne(before, ClearExpiries);
      if Call(BulkWrite, 1) in faults {
        return result, false;
      }
      result := result.(accountsCleared := |TimedAccounts(accounts)|);
      accounts := map a | a in accounts :: None;
      ghost var cleared := [ClearExpiries, ClearSubscriptions];
      ReplayTwo(before, ClearExpiries, ClearSubscriptions);
      SwitchoverSizes(before, cleared);
      if Call(Listing, 0) in faults {
        return result, false;
      }
      ghost var st1 := Now();
      var pending := ListRows(PendingRows);
      var converted;
      converted, ok := ConvertPending(pending, tokens, now, faults);
      result := result.(pendingConverted := converted);
      ReplayConcat(before, cleared, SwitchPrefix(st1, pending, |pending|, tokens, now, faults).effects);
    }

    /** Its loop over the pending rows. */
    method ConvertPending(pending: seq<nat>, tokens: seq<string>, now: Time, faults: Faults)
        returns (converted: nat, ok: bool)
      requires |pending| <= |tokens| && forall i :: 0 <= i < |pending| ==> pending[i] < |rows|
      modifies this
      ensures Did(old(Now()), SwitchPrefix(old(Now()), pending, |pending|, tokens, now, faults), ok)
      ensures converted == SwitchPrefix(old(Now()), pending, |pending|, tokens, now, faults).count
    {
      hide Update; hide UniqueRows; hide WithToken; hide Replay;
      ghost var before := Now();
      ReplayNothing(before);
      var table := rows;
      converted := 0;
      var i := 0;
      while i < |pending|
        invariant i <= |pending| && |rows| == |table|
        invariant Did(before, SwitchPrefix(before, pending, i, tokens, now, faults), true)
        invariant converted == SwitchPrefix(before, pending, i, tokens, now, faults).count
      {
        var mailbox := table[pending[i]];
        var k := pending[i];
        var token := tokens[i];
        ghost var j := i;
        ghost var mid := Now();
        i := i + 1;
        if mailbox.tokenHash != "" && mailbox.tokenExpiresAt.Some? && mailbox.tokenExpiresAt.value > now {
          continue;
        }
        if Call(Token, i - 1) in faults || cfg.publicBaseUrl == "" || Call(Mail, i - 1) in faults {
          SwitchStopped(before, pending, i, |pending|, tokens, now, faults);
          return converted, false;
        }
        var row := NewActivationToken(mailbox, token, now);
        ReplayConcat(before, SwitchPrefix(before, pending, j, tokens, now, faults).effects,
                     Update(mid, k, row, Tokened(now), j, faults).effects);
        ok := Save(k, row, Tokened(now), i - 1, faults);
        UpdateSize(mid, k, row, Tokened(now), j, faults);
        if !ok {
          SwitchStopped(before, pending, i, |pending|, tokens, now, faults);
          return;
        }
        converted := converted + 1;
      }
      ok := true;
    }

    // ---------- claims ----------

    /** ClaimMailbox: the mailbox it returns, unless it fails, and whether that is a new one. */
    method ClaimMailboxForKey(c: Claim) returns (claimed: Option<Mailbox>, created: bool)
      modifies this
      ensures Did(old(Now()), ClaimMailbox(old(Now()), c), claimed.Some?)
      ensures claimed.Some? ==> claimed.value == Returned(old(Now()), c)
      ensures created <==> claimed.Some? && Find(old(rows), ByFingerprint(c.fingerprint)).None?
    {
      hide ClaimExisting; hide ClaimNew; hide ReturnedExisting; hide Replay;
      ReplayNothing(Now());
      if '@' !in c.email || c.fingerprint == "" {
        return None, false;
      }
      var coupon := c.coupon;
      if freeMode {
        coupon := "";
      }
      var granted := ValidateCoupon(cfg, coupon);
      if granted.None? || Call(Lookup, 0) in c.faults {
        return None, false;
      }
      var found := First(ByFingerprint(c.fingerprint));
      if found.Some? {
        claimed := ReclaimMailbox(c, found.value, coupon, granted.value);
        return claimed, false;
      }
      claimed := CreateClaimed(c, coupon, granted.value);
      created := claimed.Some?;
    }

    /** The claim of a key that has a mailbox. */
    method ReclaimMailbox(c: Claim, k: nat, coupon: string, granted: int) returns (claimed: Option<Mailbox>)
      requires k < |rows|
      modifies this
      ensures Did(old(Now()), ClaimExisting(old(Now()), c, k, coupon, granted), claimed.Some?)
      ensures claimed.Some? ==> claimed.value == ReturnedExisting(old(Now()), c, k, coupon, granted)
    {
      hide ClaimPoll; hide Reprice; hide IssueLink; hide WithToken; hide PricedRow; hide KeepsCheckout; hide UniqueRows;
      ghost var before := Now();
      var existing := rows[k];
      if Usable(existing, c.now) {
        return Some(existing);
      }
      if freeMode {
        var issued := IssueActivationLink(k, existing, c.tokenHash, c.now, c.faults);
        return issued;
      }
      ghost var poll := if existing.status == PendingPayment then ClaimPoll(before, c) else Failed([]);
      if existing.status == PendingPayment {
        var applied := ReconcileOnClaim(c);
        if applied && Call(Lookup, 1) !in c.faults {
          var reread := First(ById(existing.id));
          if reread.Some? && Usable(rows[reread.value], c.now) {
            return Some(rows[reread.value]);
          }
        }
      }
      ReplayConcat(before, poll.effects, Reprice(Now(), c, k, existing, coupon, granted).effects);
      claimed := RecordCheckout(c, k, existing, coupon, granted);
    }

    /** reconcileOnClaim. */
    method ReconcileOnClaim(c: Claim) returns (applied: bool)
      modifies this
      ensures Did(old(Now()), ClaimPoll(old(Now()), c), applied)
    {
      hide Poll;
      ghost var before := Now();
      if !cfg.openCollective || c.now - lastClaimPoll < CLAIM_POLL_COOLDOWN {
        return false;
      }
      lastClaimPoll := c.now;
      ReplayOne(before, Polled(c.now));
      ReplayConcat(before, [Polled(c.now)], Poll(Now(), c.feed, c.pollFaults).effects);
      var count, ok := ReconcileOpenCollectivePayments(c.feed, c.pollFaults);
      applied := ok && count > 0;
    }

    /** The paid rest of it, on the copy that was read at the start. */
    method RecordCheckout(c: Claim, k: nat, existing: Mailbox, coupon: string, granted: int)
        returns (claimed: Option<Mailbox>)
      modifies this
      ensures Did(old(Now()), Reprice(old(Now()), c, k, existing, coupon, granted), claimed.Some?)
      ensures claimed.Some? ==>
        claimed.value == if KeepsCheckout(cfg, c, existing) then existing
                         else PricedRow(cfg, c, existing, coupon, granted)
    {
      hide UniqueRows; hide Update; hide Replay; hide SessionStatus; hide LinkSession; hide AndThen;
      ghost var before := Now();
      ReplayNothing(before);
      if coupon != "" && existing.couponUsed {
        return None;
      }
      if existing.status == PendingPayment && existing.session != "" && existing.paymentUrl != "" {
        var reply := SessionStatus(cfg, existing.session, c.replies);
        if Call(Gateway, 0) in c.faults || reply.GatewayError? {
          return None;
        }
        if !reply.Unknown? && !reply.SessionExpired? && !reply.SessionFailed? {
          return Some(existing);
        }
      }
      if Call(Gateway, 1) in c.faults {
        return None;
      }
      var row := existing.(session := LinkSession(cfg, existing.id, c.newSession));
      row := row.(paymentUrl := c.newUrl);
      row := row.(status := PendingPayment);
      row := row.(grantedMonths := granted);
      if coupon != "" {
        row := row.(couponUsed := true);
      }
      assert row == PricedRow(cfg, c, existing, coupon, granted);
      hide PricedRow;
      ghost var write := Update(before, k, row, Priced(c.now), 0, c.faults);
      MailAfter(write, Call(Mail, 0) in c.faults);
      if k >= |rows| {
        OutOfTable(before, k, row, Priced(c.now), 0, c.faults);
        return None;
      }
      var ok := Save(k, row, Priced(c.now), 0, c.faults);
      claimed := if ok && Call(Mail, 0) !in c.faults then Some(row) else None;
    }

    /** The claim of a key that has no mailbox yet. */
    method CreateClaimed(c: Claim, coupon: string, granted: int) returns (claimed: Option<Mailbox>)
      modifies this
      ensures Did(old(Now()), ClaimNew(old(Now()), c, coupon, granted), claimed.Some?)
      ensures claimed.Some? ==> claimed.value == PendingRow(old(Now()), c, NewMailbox(c, coupon, granted))
    {
      hide CreatePending; hide PendingRow;
      if Call(Token, 1) in c.faults || Call(Token, 2) in c.faults {
        return None;
      }
      var mailbox := Mailbox(c.id, "", c.fingerprint, c.login, c.accessToken, "", "", "", None, "", None,
                             PendingPayment, granted, coupon != "", None, None);
      claimed := AddPending(c, mailbox);
    }

    /** The end of both creations: an activation link in free mode, a checkout in paid mode. */
    method AddPending(c: Claim, mailbox: Mailbox) returns (added: Option<Mailbox>)
      modifies this
      ensures Did(old(Now()), CreatePending(old(Now()), c, mailbox), added.Some?)
      ensures added.Some? ==> added.value == PendingRow(old(Now()), c, mailbox)
    {
      hide UniqueRows; hide Create; hide Replay; hide WithToken;
      ghost var before := Now();
      ReplayNothing(before);
      var row: Mailbox;
      if freeMode {
        if Call(Token, 0) in c.faults {
          return None;
        }
        row := NewActivationToken(mailbox, c.tokenHash, c.now);
      } else {
        if Call(Gateway, 1) in c.faults {
          return None;
        }
        row := mailbox.(session := LinkSession(cfg, mailbox.id, c.newSession));
        row := row.(paymentUrl := c.newUrl);
      }
      assert row == PendingRow(before, c, mailbox);
      ghost var write := Create(before, row, false, 0, c.faults);
      assert write.effects + [] == write.effects;
      var ok := Add(row, false, 0, c.faults);
      CreateKeeps(before, row, false, 0, c.faults);
      if !ok {
        return None;
      }
      if freeMode {
        ok := SendActivationLink(0, c.faults);
      } else {
        ok := Call(Mail, 0) !in c.faults;
      }
      added := if ok then Some(row) else None;
    }

    /** CreateMailbox, for an account. */
    method CreateMailboxFor(account: string, c: Claim) returns (mailbox: Option<Mailbox>, created: bool)
      modifies this
      ensures Did(old(Now()), CreateMailbox(old(Now()), account, c), mailbox.Some?)
      ensures mailbox.Some? ==> (mailbox.value, created) == CreationReturned(old(Now()), account, c)
    {
      hide CreatePending; hide UniqueRows; hide IssueLink; hide Create; hide Ensure; hide WithToken; hide PendingRow;
      hide Replay;
      ReplayNothing(Now());
      if account == "" {
        return None, false;
      }
      var subscription := if account in accounts then accounts[account] else None;
      var subscribed := !freeMode && After(subscription, c.now);
      if !subscribed {
        if Call(Lookup, 0) in c.faults {
          return None, false;
        }
        var pending := First(PendingOf(account));
        if pending.Some? {
          if freeMode {
            var issued := IssueActivationLink(pending.value, rows[pending.value], c.tokenHash, c.now, c.faults);
            return issued, false;
          }
          return Some(rows[pending.value]), false;
        }
      }
      if Call(Token, 1) in c.faults || Call(Token, 2) in c.faults {
        return None, false;
      }
      var row := Mailbox(c.id, account, "", c.login, c.accessToken, "", "", "", None, "", None,
                         PendingPayment, 0, false, None, None);
      if !subscribed {
        var added := AddPending(c, row);
        return added, added.Some?;
      }
      row := row.(status := Active);
      row := row.(paidAt := Some(c.now));
      row := row.(expiresAt := subscription);
      var ok := AddThenEnsure(row, false, 0, c.faults);
      return if ok then Some(row) else None, true;
    }

    method AddThenEnsure(row: Mailbox, ghost byAdmin: bool, i: nat, faults: Faults) returns (ok: bool)
      modifies this
      ensures var before := old(Now());
              Did(before, AndThen(Create(before, row, byAdmin, i, faults), Ensure(row.login, i, faults)), ok)
    {
      ghost var before := Now();
      ok := Add(row, byAdmin, i, faults);
      if ok {
        ReplayConcat(before, Create(before, row, byAdmin, i, faults).effects, Ensure(row.login, i, faults).effects);
        ok := EnsureMailbox(row.login, i, faults);
      }
    }

    // ---------- access ----------

    /** ResolveAccessByKey. */
    method ResolveAccessByKey(fingerprint: string, protocol: string, now: Time, faults: Faults)
        returns (access: Option<Credentials>)
      modifies this
      ensures Did(old(Now()),
                  if protocol == PROTOCOL then ResolveByKey(old(Now()), fingerprint, now, faults) else Failed([]),
                  access.Some?)
      ensures access.Some? ==>
        var found := Find(old(rows), ByFingerprint(fingerprint));
        found.Some? &&
        var m := old(rows)[found.value];
        access.value == Credentials(m.id, m.login, m.accessToken) && m.login in enabled && enabled[m.login]
    {
      hide Expire; hide Replay;
      ReplayNothing(Now());
      if protocol != PROTOCOL {
        return None;
      }
      if fingerprint == "" || Call(Lookup, 0) in faults {
        return None;
      }
      var found := First(ByFingerprint(fingerprint));
      if found.None? {
        return None;
      }
      var mailbox := rows[found.value];
      if Usable(mailbox, now) {
        var ok := EnsureMailbox(mailbox.login, 1, faults);
        return if ok then Some(CredentialsOf(mailbox)) else None;
      }
      if !freeMode && mailbox.status == Active && mailbox.expiresAt.Some? && !(mailbox.expiresAt.value > now) {
        var dropped := ExpireMailbox(found.value, mailbox, Lapsed, 0, faults);
      }
      return None;
    }

    /** validateMailboxSubscription. */
    method ValidateMailboxSubscription(k: nat, mailbox: Mailbox, now: Time, faults: Faults) returns (ok: bool)
      requires k < |rows|
      modifies this
      ensures Did(old(Now()), ValidateSubscription(old(Now()), k, mailbox, now, faults), ok)
    {
      hide Expire; hide Update; hide UniqueRows;
      if mailbox.accountId == "" {
        if !Usable(mailbox, now) {
          if !freeMode && mailbox.status == Active && mailbox.expiresAt.Some? && !(mailbox.expiresAt.value > now) {
            var dropped := ExpireMailbox(k, mailbox, Lapsed, 0, faults);
          }
          return false;
        }
        return true;
      }
      if Call(AccountRead, 0) in faults || mailbox.accountId !in accounts {
        return false;
      }
      var expiry := accounts[mailbox.accountId];
      if freeMode {
        return Usable(mailbox, now);
      }
      if mailbox.expiresAt.None? && mailbox.status == Active && mailbox.paidAt.Some? {
        return true;
      }
      if expiry.None? || !(expiry.value > now) {
        if mailbox.status == Active {
          var dropped := ExpireMailbox(k, mailbox, Lapsed, 0, faults);
        }
        return false;
      }
      if mailbox.status != Active {
        var row := mailbox.(status := Active);
        row := row.(expiresAt := expiry);
        var dropped := Save(k, row, Synced, 0, faults);
      }
      return true;
    }

    /** ResolveAccessByToken. */
    method ResolveAccessByToken(accessToken: string, protocol: string, now: Time, faults: Faults)
        returns (access: Option<Credentials>)
      modifies this
      ensures Did(old(Now()),
                  if protocol == PROTOCOL then ResolveByToken(old(Now()), accessToken, now, faults) else Failed([]),
                  access.Some?)
      ensures access.Some? ==>
        var found := Find(old(rows), ByAccessToken(accessToken));
        found.Some? &&
        var m := old(rows)[found.value];
        access.value == Credentials(m.id, m.login, m.accessToken) && m.login in enabled && enabled[m.login]
    {
      hide ValidateSubscription; hide Replay; hide Ensure;
      ghost var before := Now();
      ReplayNothing(before);
      if protocol != PROTOCOL {
        return None;
      }
      if Call(Lookup, 0) in faults {
        return None;
      }
      var found := First(ByAccessToken(accessToken));
      if found.None? {
        return None;
      }
      var mailbox := rows[found.value];
      var ok := ValidateMailboxSubscription(found.value, mailbox, now, faults);
      if !ok {
        return None;
      }
      ReplayConcat(before, ValidateSubscription(before, found.value, mailbox, now, faults).effects,
                   Ensure(mailbox.login, 1, faults).effects);
      ok := EnsureMailbox(mailbox.login, 1, faults);
      return if ok then Some(CredentialsOf(mailbox)) else None;
    }

    // ---------- administration ----------

    /** RenewMailbox. */
    method RenewMailbox(id: string, paidAt: Time, expiresAt: Time, faults: Faults) returns (ok: bool)
      modifies this
      ensures Did(old(Now()), AdminRenew(old(Now()), id, paidAt, expiresAt, faults), ok)
    {
      if freeMode {
        return true;
      }
      if Call(Lookup, 0) in faults {
        return false;
      }
      var found := First(ById(id));
      if found.None? {
        return false;
      }
      var mailbox := rows[found.value];
      mailbox := mailbox.(status := Active);
      mailbox := mailbox.(paidAt := Some(paidAt));
      mailbox := mailbox.(expiresAt := Some(expiresAt));
      ok := Save(found.value, mailbox, Admin, 0, faults);
    }

    /** ExpireMailboxByID. */
    method ExpireMailboxById(id: string, faults: Faults) returns (ok: bool)
      modifies this
      ensures Did(old(Now()), AdminExpire(old(Now()), id, faults), ok)
    {
      hide Expire;
      if freeMode {
        return true;
      }
      if Call(Lookup, 0) in faults {
        return false;
      }
      var found := First(ById(id));
      if found.None? {
        return false;
      }
      ok := ExpireMailbox(found.value, rows[found.value], Admin, 0, faults);
    }

    /** ReprovisionMailbox. */
    method ReprovisionMailbox(id: string, fingerprint: string, expiresAt: Time, c: Claim) returns (ok: bool)
      modifies this
      ensures Did(old(Now()), Reprovision(old(Now()), id, fingerprint, expiresAt, c), ok)
    {
      hide UniqueRows; hide Update; hide Create;
      var found := First(ById(id));
      if Call(Lookup, 0) !in c.faults && found.Some? {
        var existing := rows[found.value];
        existing := existing.(fingerprint := fingerprint);
        existing := existing.(status := Active);
        existing := existing.(paidAt := Some(c.now));
        existing := existing.(expiresAt := Some(expiresAt));
        ok := SaveThenEnsure(found.value, existing, Admin, 0, c.faults);
        return;
      }
      if Call(Token, 1) in c.faults || Call(Token, 2) in c.faults {
        return false;
      }
      var mailbox := Mailbox(id, "", fingerprint, c.login, c.accessToken, "", "", "", None, "", None,
                             Active, 0, false, Some(c.now), Some(expiresAt));
      ok := AddThenEnsure(mailbox, true, 0, c.faults);
    }
  }

  lemma ReplayKeepsConfig(st: State, effects: seq<Effect>)
    ensures Replay(st, effects).cfg == st.cfg
    decreases |effects|
  {
    if effects != [] {
      ReplayKeepsConfig(st, effects[..|effects| - 1]);
    }
  }

  lemma UpdateSize(st: State, k: nat, row: Mailbox, why: Why, i: nat, faults: Faults)
    ensures var after := Replay(st, Update(st, k, row, why, i, faults).effects);
            |after.rows| == |st.rows| && after.freeMode == st.freeMode
  {
    hide UniqueRows;
    ReplayNothing(st);
    ReplayOne(st, Save(k, row, why));
  }

  lemma {:induction false} SweepStopped(st: State, due: seq<nat>, n: nat, m: nat, faults: Faults)
    requires n <= m <= |due| && forall i :: 0 <= i < |due| ==> due[i] < |st.rows|
    requires !SweepPrefix(st, due, n, faults).ok
    ensures SweepPrefix(st, due, m, faults) == SweepPrefix(st, due, n, faults)
  {
    if n < m {
      SweepStopped(st, due, n, m - 1, faults);
    }
  }

  lemma {:induction false} DisableStopped(st: State, listed: seq<nat>, n: nat, m: nat, faults: Faults)
    requires n <= m <= |listed| && forall i :: 0 <= i < |listed| ==> listed[i] < |st.rows|
    requires !DisablePrefix(st, listed, n, faults).ok
    ensures DisablePrefix(st, listed, m, faults) == DisablePrefix(st, listed, n, faults)
  {
    if n < m {
      DisableStopped(st, listed, n, m - 1, faults);
    }
  }

  lemma {:induction false} SwitchStopped(st: State, listed: seq<nat>, n: nat, m: nat, tokens: seq<string>, now: Time,
                                         faults: Faults)
    requires n <= m <= |listed| <= |tokens| && forall i :: 0 <= i < |listed| ==> listed[i] < |st.rows|
    requires !SwitchPrefix(st, listed, n, tokens, now, faults).ok
    ensures SwitchPrefix(st, listed, m, tokens, now, faults) == SwitchPrefix(st, listed, n, tokens, now, faults)
  {
    hide Update; hide WithToken; hide HasValidToken; hide Replay;
    if n < m {
      SwitchStopped(st, listed, n, m - 1, tokens, now, faults);
    }
  }

  /** A mail after a write leaves the writes as they are. */
  lemma MailAfter(write: Trace, lost: bool)
    ensures var t := AndThen(write, if lost then Failed([]) else Trace([], true, 1));
            t.effects == write.effects && (t.ok <==> write.ok && !lost)
  {
    assert write.effects + [] == write.effects;
  }

  lemma PendingNothing(st: State, listed: seq<nat>, now: Time, replies: map<string, SessionReply>, faults: Faults)
    requires forall i :: 0 <= i < |listed| ==> listed[i] < |st.rows|
    ensures Replay(st, PendingPrefix(st, listed, 0, now, replies, faults).effects) == st
    ensures PendingResults(st, listed, 0, now, replies, faults) == []
  {
  }

  /** A row that could not be paid does not stop the others. */
  lemma PendingAllOk(st: State, listed: seq<nat>, n: nat, now: Time, replies: map<string, SessionReply>, faults: Faults)
    requires n <= |listed| && forall i :: 0 <= i < |listed| ==> listed[i] < |st.rows|
    ensures PendingPrefix(st, listed, n, now, replies, faults).ok
  {
  }

  /** One more row of the pending reconciler. */
  lemma PendingStep(st: State, mid: State, listed: seq<nat>, n: nat, now: Time, replies: map<string, SessionReply>,
                    faults: Faults)
    requires n < |listed| && forall i :: 0 <= i < |listed| ==> listed[i] < |st.rows|
    requires mid == Replay(st, PendingPrefix(st, listed, n, now, replies, faults).effects) && mid.cfg == st.cfg
    ensures var m := st.rows[listed[n]];
            var paying := MarkPaid(mid, m.session, None, now, n, faults);
            var result := ResultFor(m, Call(Gateway, n) in faults, SessionStatus(st.cfg, m.session, replies),
                                    paying.ok);
            var next := PendingPrefix(st, listed, n + 1, now, replies, faults);
            && Replay(st, next.effects) == (if result.deed == PaidFor || result.deed == PayingFailed
                                            then Replay(mid, paying.effects) else mid)
            && PendingResults(st, listed, n + 1, now, replies, faults)
                 == PendingResults(st, listed, n, now, replies, faults) + [result]
  {
    hide MarkPaid; hide SessionStatus; hide Replay;
    var m := st.rows[listed[n]];
    ReplayConcat(st, PendingPrefix(st, listed, n, now, replies, faults).effects,
                 MarkPaid(mid, m.session, None, now, n, faults).effects);
  }

  lemma OutOfTable(st: State, k: nat, row: Mailbox, why: Why, i: nat, faults: Faults)
    requires k >= |st.rows|
    ensures Update(st, k, row, why, i, faults) == Failed([])
  {
  }

  lemma CreateKeeps(st: State, row: Mailbox, byAdmin: bool, i: nat, faults: Faults)
    ensures var after := Replay(st, Create(st, row, byAdmin, i, faults).effects);
            after.cfg == st.cfg && after.freeMode == st.freeMode
  {
    ReplayOne(st, Insert(row, byAdmin));
  }

  lemma UpdateSameRows(a: State, b: State, k: nat, row: Mailbox, why: Why, i: nat, faults: Faults)
    requires a.rows == b.rows
    ensures Update(a, k, row, why, i, faults) == Update(b, k, row, why, i, faults)
  {
  }
}
